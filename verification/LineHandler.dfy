/**
 The cursor over one line that all parsers use.

 Every operation is specified on the text that is left of the line; class `LineHandler` implements
 it on a buffer in which a newline follows the line, as the line reader hands it out.
 */
module LineHandler {
  import opened Wrappers

  const ULONG_MAX: nat := 0xFFFF_FFFF_FFFF_FFFF
  const LONG_MAX: nat := 0x7FFF_FFFF_FFFF_FFFF

  // ---------------------------------------------------------------- character classes

  predicate IsSpace(c: char) { c == ' ' || '\t' <= c <= '\r' }
  predicate IsNum(c: char) { '0' <= c <= '9' }
  predicate IsAlnum(c: char) { IsNum(c) || 'a' <= c <= 'z' || 'A' <= c <= 'Z' }

  /** First position from `i` on whose character does not satisfy `pred`. */
  function TokenEnd(r: string, pred: char -> bool, i: nat): (end: nat)
    requires i <= |r|
    ensures i <= end <= |r|
    decreases |r| - i
  {
    if i == |r| || !pred(r[i]) then i else TokenEnd(r, pred, i + 1)
  }

  /** Length of the longest prefix whose characters all satisfy `pred`. */
  function TokenLen(r: string, pred: char -> bool): (k: nat)
    ensures k <= |r|
  {
    TokenEnd(r, pred, 0)
  }

  lemma {:induction false} TokenEndFacts(r: string, pred: char -> bool, i: nat)
    requires i <= |r|
    ensures forall j :: i <= j < TokenEnd(r, pred, i) ==> pred(r[j])
    ensures TokenEnd(r, pred, i) < |r| ==> !pred(r[TokenEnd(r, pred, i)])
    decreases |r| - i
  {
    if i < |r| && pred(r[i]) {
      TokenEndFacts(r, pred, i + 1);
    }
  }

  lemma TokenFacts(r: string, pred: char -> bool)
    ensures forall i :: 0 <= i < TokenLen(r, pred) ==> pred(r[i])
    ensures TokenLen(r, pred) < |r| ==> !pred(r[TokenLen(r, pred)])
  {
    TokenEndFacts(r, pred, 0);
  }

  lemma TokenUnique(r: string, pred: char -> bool, k: nat)
    requires k <= |r| && (forall i :: 0 <= i < k ==> pred(r[i])) && (k < |r| ==> !pred(r[k]))
    ensures TokenLen(r, pred) == k
  {
    TokenFacts(r, pred);
  }

  // ---------------------------------------------------------------- numbers

  function DigitValue(c: char): nat {
    if '0' <= c <= '9' then c as int - '0' as int
    else if 'a' <= c <= 'f' then c as int - 'a' as int + 10
    else if 'A' <= c <= 'F' then c as int - 'A' as int + 10
    else 99
  }

  predicate IsDigit(base: nat, c: char) { DigitValue(c) < base }

  /** The number that the digits between two positions stand for. */
  function Value(base: nat, r: string, start: nat, end: nat): nat
    requires start <= end <= |r|
  {
    if start == end then 0 else Value(base, r, start, end - 1) * base + DigitValue(r[end - 1])
  }

  function DigitOf(base: nat): char -> bool { c => IsDigit(base, c) }

  /** strtoul on a text that starts with an alphanumeric character. */
  function StrToUl(base: nat, r: string): nat {
    var start := if base == 16 && |r| >= 3 && r[0] == '0' && (r[1] == 'x' || r[1] == 'X') && IsDigit(16, r[2])
                 then 2 else 0;
    var v := Value(base, r, start, TokenEnd(r, DigitOf(base), start));
    if v > ULONG_MAX then ULONG_MAX else v
  }

  /** ParseUintTrim: the value and what is left. */
  function ParseUint(base: nat, r: string): (o: Option<(nat, string)>)
    ensures o.Some? ==> o.value.0 < ULONG_MAX
  {
    if base != 10 && base != 16 then None
    else
      var k := TokenLen(r, if base == 10 then IsNum else IsAlnum);
      if k == 0 || StrToUl(base, r) == ULONG_MAX then None else Some((StrToUl(base, r), r[k..]))
  }

  /** The conversion from long to int keeps the low 32 bits. */
  function ToInt(n: nat): (i: int)
    ensures -0x8000_0000 <= i < 0x8000_0000
  {
    var low := n % 0x1_0000_0000;
    if low < 0x8000_0000 then low else low - 0x1_0000_0000
  }

  function ParseIntText(r: string): (o: Option<(int, string)>)
    ensures o.Some? ==> -0x8000_0000 <= o.value.0 < 0x8000_0000
  {
    var k := TokenLen(r, IsNum);
    if k == 0 then None
    else
      var v := Value(10, r, 0, k);
      Some((ToInt(if v > LONG_MAX then LONG_MAX else v), r[k..]))
  }

  // ---------------------------------------------------------------- literals

  function Literal(r: string, lit: string): Option<string> {
    if r == [] || !(lit <= r) then None else Some(r[|lit|..])
  }

  /** How far `pat` agrees with `r` from position `i` on, given that its first `j` characters do. */
  function MatchAt(r: string, i: nat, pat: string, j: nat): (m: nat)
    requires j <= |pat| && i + j <= |r|
    ensures j <= m <= |pat| && i + m <= |r|
    decreases |pat| - j
  {
    if j == |pat| || i + j == |r| || r[i + j] != pat[j] then j else MatchAt(r, i, pat, j + 1)
  }

  /** The search of ConsumeAndTrimTillString from position `i` on: after a partial match it goes on
      behind the matched characters and never looks at them again.  The result is the position
      behind the match. */
  function Scan(r: string, i: nat, pat: string): (end: Option<nat>)
    requires pat != [] && i <= |r|
    ensures end.Some? ==> end.value <= |r|
    decreases |r| - i
  {
    if i == |r| then None
    else if r[i] != pat[0] then Scan(r, i + 1, pat)
    else
      var m := MatchAt(r, i, pat, 1);
      if m == |pat| then Some(i + m) else Scan(r, i + m, pat)
  }

  function TillString(r: string, pat: string): Option<string> {
    if r == [] || |r| < |pat| || pat == [] then None
    else match Scan(r, 0, pat) case None => None case Some(end) => Some(r[end..])
  }

  function DropSpaces(r: string): string { r[TokenLen(r, IsSpace)..] }

  // ---------------------------------------------------------------- the class

  class LineHandler {
    const buf: seq<char>
    const size: nat
    var curReadingPos: nat

    ghost predicate Valid()
      reads this
    {
      curReadingPos <= size < |buf| && buf[size] == '\n'
    }

    ghost function Left(): string
      requires Valid()
      reads this
    {
      buf[curReadingPos..size]
    }

    constructor (buf: seq<char>, size: nat)
      requires size < |buf| && buf[size] == '\n'
      ensures Valid() && Left() == buf[..size] && this.buf == buf && this.size == size
    {
      this.buf, this.size, curReadingPos := buf, size, 0;
    }

    predicate IsEmpty()
      requires Valid()
      reads this
    {
      size - curReadingPos <= 0
    }

    method TrimL()
      requires Valid()
      modifies this
      ensures Valid() && Left() == DropSpaces(old(Left()))
    {
      ghost var left, start := Left(), curReadingPos;
      var tmp := curReadingPos;
      while tmp < size && IsSpace(buf[tmp])
        invariant start <= tmp <= size && curReadingPos == tmp
        invariant forall i :: start <= i < tmp ==> IsSpace(buf[i])
      {
        curReadingPos := curReadingPos + 1;
        tmp := tmp + 1;
      }
      TokenUnique(left, IsSpace, tmp - start);
    }

    method ExtractAndSubstrUntil(pred: char -> bool) returns (extracted: string)
      requires Valid()
      modifies this
      ensures Valid() && extracted == old(Left())[..TokenLen(old(Left()), pred)]
      ensures Left() == old(Left())[TokenLen(old(Left()), pred)..]
    {
      ghost var left, start := Left(), curReadingPos;
      extracted := [];
      while !IsEmpty()
        invariant start <= curReadingPos <= size && Valid()
        invariant extracted == buf[start..curReadingPos]
        invariant forall i :: start <= i < curReadingPos ==> pred(buf[i])
        decreases size - curReadingPos
      {
        var letter := buf[curReadingPos];
        if !pred(letter) {
          TokenUnique(left, pred, curReadingPos - start);
          return;
        }
        extracted := extracted + [letter];
        curReadingPos := curReadingPos + 1;
      }
      TokenUnique(left, pred, curReadingPos - start);
    }

    method ConsumeAndTrimString(toConsume: string) returns (ok: bool)
      requires Valid()
      modifies this
      ensures Valid() && ok == Literal(old(Left()), toConsume).Some?
      ensures Left() == if ok then Literal(old(Left()), toConsume).value else old(Left())
    {
      if IsEmpty() || size - curReadingPos < |toConsume| {
        return false;
      }
      var consumed := 0;
      while consumed < |toConsume|
        invariant 0 <= consumed <= |toConsume| <= size - curReadingPos
        invariant forall i :: 0 <= i < consumed ==> toConsume[i] == buf[curReadingPos + i]
      {
        if toConsume[consumed] != buf[curReadingPos + consumed] {
          assert Left()[consumed] != toConsume[consumed];
          return false;
        }
        consumed := consumed + 1;
      }
      assert toConsume == Left()[..|toConsume|];
      curReadingPos := curReadingPos + consumed;
      ok := true;
    }

    method ConsumeAndTrimChar(toConsume: char) returns (ok: bool)
      requires Valid()
      modifies this
      ensures Valid() && ok == Literal(old(Left()), [toConsume]).Some?
      ensures Left() == if ok then Literal(old(Left()), [toConsume]).value else old(Left())
    {
      if IsEmpty() {
        return false;
      }
      var letter := buf[curReadingPos];
      assert Left()[0] == letter;
      if letter != toConsume {
        return false;
      }
      assert [toConsume] == Left()[..1];
      curReadingPos := curReadingPos + 1;
      ok := true;
    }

    /** The inner loop of the search: how far the pattern agrees with the text from `start` on. */
    method TryMatching(start: nat, toConsume: string) returns (matched: nat)
      requires Valid() && start < |Left()| && toConsume != [] && Left()[start] == toConsume[0]
      ensures matched == MatchAt(Left(), start, toConsume, 1)
    {
      ghost var left := Left();
      matched := 0;
      while matched < |toConsume| && curReadingPos + start + matched != size
                                  && toConsume[matched] == buf[curReadingPos + start + matched]
        invariant matched <= |toConsume| && start + matched <= |left|
        invariant MatchAt(left, start, toConsume, 1)
               == MatchAt(left, start, toConsume, if matched == 0 then 1 else matched)
      {
        assert left[start + matched] == toConsume[matched];
        matched := matched + 1;
      }
    }

    /** The search: the position behind the match, relative to the cursor. */
    method Search(toConsume: string) returns (end: Option<nat>)
      requires Valid() && toConsume != []
      ensures end == Scan(Left(), 0, toConsume)
    {
      ghost var left := Left();
      var consumed := 0;
      while curReadingPos + consumed != size
        invariant consumed <= |left| && Scan(left, 0, toConsume) == Scan(left, consumed, toConsume)
        decreases |left| - consumed
      {
        // search for potential start
        while curReadingPos + consumed != size && toConsume[0] != buf[curReadingPos + consumed]
          invariant consumed <= |left| && Scan(left, 0, toConsume) == Scan(left, consumed, toConsume)
          decreases |left| - consumed
        {
          assert left[consumed] == buf[curReadingPos + consumed];
          consumed := consumed + 1;
        }
        if curReadingPos + consumed == size {
          return None;
        }
        // try matching
        assert left[consumed] == buf[curReadingPos + consumed];
        var matched := TryMatching(consumed, toConsume);
        consumed := consumed + matched;
        if matched == |toConsume| {
          return Some(consumed);
        }
      }
      end := None;
    }

    method ConsumeAndTrimTillString(toConsume: string) returns (ok: bool)
      requires Valid()
      modifies this
      ensures Valid() && ok == TillString(old(Left()), toConsume).Some?
      ensures Left() == if ok then TillString(old(Left()), toConsume).value else old(Left())
    {
      if IsEmpty() || size - curReadingPos < |toConsume| || toConsume == [] {
        return false;
      }
      ghost var left := Left();
      var end := Search(toConsume);
      if end.None? {
        return false;
      }
      curReadingPos := curReadingPos + end.value;
      assert Left() == left[end.value..];
      ok := true;
    }

    method ParseUintTrim(base: nat) returns (ok: bool, target: nat)
      requires Valid()
      modifies this
      ensures Valid() && ok == ParseUint(base, old(Left())).Some?
      ensures if ok then ParseUint(base, old(Left())) == Some((target, Left())) else Left() == old(Left())
      ensures target < ULONG_MAX
    {
      ok, target := false, 0;
      if IsEmpty() || (base != 10 && base != 16) {
        return;
      }
      var pred := if base == 10 then IsNum else IsAlnum;
      ghost var left := Left();
      var length := 0;
      while pred(buf[curReadingPos + length])
        invariant 0 <= length <= |left|
        invariant forall i :: 0 <= i < length ==> pred(left[i])
        decreases |left| - length
      {
        assert curReadingPos + length != size;
        length := length + 1;
      }
      TokenUnique(left, pred, length);
      assert ParseUint(base, left) == if length == 0 || StrToUl(base, left) == ULONG_MAX then None
                                      else Some((StrToUl(base, left), left[length..]));
      if length == 0 || curReadingPos + length > size {
        return;
      }
      var num := StrToUl(base, buf[curReadingPos..size]);
      if num == ULONG_MAX {
        return;
      }
      target := num;
      curReadingPos := curReadingPos + length;
      assert Left() == left[length..];
      ok := true;
    }

    method ParseInt() returns (ok: bool, target: int)
      requires Valid()
      modifies this
      ensures Valid() && ok == ParseIntText(old(Left())).Some?
      ensures if ok then ParseIntText(old(Left())) == Some((target, Left())) else Left() == old(Left())
      ensures -0x8000_0000 <= target < 0x8000_0000
    {
      ok, target := false, 0;
      if IsEmpty() {
        return;
      }
      ghost var left := Left();
      var length := 0;
      while IsNum(buf[curReadingPos + length])
        invariant 0 <= length <= |left|
        invariant forall i :: 0 <= i < length ==> IsNum(left[i])
        decreases |left| - length
      {
        length := length + 1;
      }
      TokenUnique(left, IsNum, length);
      if length == 0 || curReadingPos + length > size {
        return;
      }
      var v := Value(10, buf[curReadingPos..size], 0, length);
      target := ToInt(if v > LONG_MAX then LONG_MAX else v);
      curReadingPos := curReadingPos + length;
      ok := true;
    }
  }

  // ---------------------------------------------------------------- the search without backtracking

  predicate OccursAt(r: string, pat: string, i: nat) {
    i + |pat| <= |r| && forall j :: 0 <= j < |pat| ==> r[i + j] == pat[j]
  }

  lemma {:induction false} MatchFacts(r: string, i: nat, pat: string, j: nat)
    requires j <= |pat| && i + j <= |r| && forall k :: 0 <= k < j ==> r[i + k] == pat[k]
    ensures var m := MatchAt(r, i, pat, j);
            && (forall k :: 0 <= k < m ==> r[i + k] == pat[k])
            && (m < |pat| && i + m < |r| ==> r[i + m] != pat[m])
    decreases |pat| - j
  {
    if j < |pat| && i + j < |r| && r[i + j] == pat[j] {
      MatchFacts(r, i, pat, j + 1);
    }
  }

  lemma MatchUnique(r: string, i: nat, pat: string, m: nat)
    requires 1 <= m < |pat| && i + m < |r| && r[i + m] != pat[m]
    requires forall k :: 0 <= k < m ==> r[i + k] == pat[k]
    ensures MatchAt(r, i, pat, 1) == m
  {
    MatchFacts(r, i, pat, 1);
  }

  /** Whatever the pattern, success leaves the cursor just behind an occurrence. */
  lemma {:induction false} ScanIsSound(r: string, i: nat, pat: string)
    requires pat != [] && i <= |r| && Scan(r, i, pat).Some?
    ensures i + |pat| <= Scan(r, i, pat).value && OccursAt(r, pat, Scan(r, i, pat).value - |pat|)
    decreases |r| - i
  {
    if r[i] != pat[0] {
      ScanIsSound(r, i + 1, pat);
    } else {
      MatchFacts(r, i, pat, 1);
      var m := MatchAt(r, i, pat, 1);
      if m < |pat| {
        ScanIsSound(r, i + m, pat);
      }
    }
  }

  /** Wherever the first character recurs, the rest of the pattern repeats its beginning. */
  predicate SelfAligned(pat: string) {
    forall i :: 0 < i < |pat| && pat[i] == pat[0] ==> pat[i..] == pat[..|pat| - i]
  }

  /** The end of the leftmost occurrence from `i` on, searched for with full backtracking. */
  function Leftmost(r: string, i: nat, pat: string): (end: Option<nat>)
    requires i <= |r|
    decreases |r| - i
  {
    if OccursAt(r, pat, i) then Some(i + |pat|) else if i == |r| then None else Leftmost(r, i + 1, pat)
  }

  lemma {:induction false} LeftmostFacts(r: string, i: nat, pat: string)
    requires i <= |r|
    ensures var end := Leftmost(r, i, pat);
            && (end.Some? ==> i + |pat| <= end.value && OccursAt(r, pat, end.value - |pat|))
            && forall k :: i <= k && (end.Some? ==> k < end.value - |pat|) ==> !OccursAt(r, pat, k)
    decreases |r| - i
  {
    if i < |r| && !OccursAt(r, pat, i) {
      LeftmostFacts(r, i + 1, pat);
    }
  }

  lemma {:induction false} LeftmostUnique(r: string, i: nat, j: nat, pat: string)
    requires i <= j <= |r| && forall k :: i <= k < j ==> !OccursAt(r, pat, k)
    ensures Leftmost(r, i, pat) == Leftmost(r, j, pat)
    decreases j - i
  {
    if i < j {
      LeftmostUnique(r, i + 1, j, pat);
    }
  }

  /** An occurrence inside the matched part of a self-aligned pattern would extend the match. */
  lemma OccurrenceExtends(r: string, i: nat, pat: string, m: nat, at: nat)
    requires SelfAligned(pat) && OccursAt(r, pat, at) && i <= at < i + m && m < |pat|
    requires i + m <= |r| && forall k :: 0 <= k < m ==> r[i + k] == pat[k]
    ensures i + m < |r| && r[i + m] == pat[m]
  {
    var d := at - i;
    assert r[at + (m - d)] == pat[m - d];
    assert pat[d] == r[i + d] == r[at + 0] == pat[0];
    if d > 0 {
      assert pat[m] == pat[d..][m - d] == pat[..|pat| - d][m - d];
    }
  }

  lemma NothingInside(r: string, i: nat, pat: string, m: nat)
    requires SelfAligned(pat) && m < |pat| && i + m <= |r| && forall k :: 0 <= k < m ==> r[i + k] == pat[k]
    requires i + m < |r| ==> r[i + m] != pat[m]
    ensures forall k :: i <= k < i + m ==> !OccursAt(r, pat, k)
  {
    forall k | i <= k < i + m ensures !OccursAt(r, pat, k) {
      if OccursAt(r, pat, k) {
        OccurrenceExtends(r, i, pat, m, k);
        assert false;
      }
    }
  }

  lemma HeadOfOccurrence(r: string, i: nat, pat: string)
    requires pat != [] && OccursAt(r, pat, i)
    ensures r[i] == pat[0]
  {
    assert r[i + 0] == pat[0];
  }

  /** For a self-aligned pattern the search finds the leftmost occurrence, in every text. */
  lemma {:induction false} ScanFindsLeftmost(r: string, i: nat, pat: string)
    requires pat != [] && SelfAligned(pat) && i <= |r|
    ensures Scan(r, i, pat) == Leftmost(r, i, pat)
    decreases |r| - i
  {
    if i < |r| {
      if r[i] != pat[0] {
        if OccursAt(r, pat, i) {
          HeadOfOccurrence(r, i, pat);
          assert false;
        }
        ScanFindsLeftmost(r, i + 1, pat);
      } else {
        var m := MatchAt(r, i, pat, 1);
        MatchFacts(r, i, pat, 1);
        if m < |pat| {
          NothingInside(r, i, pat, m);
          LeftmostUnique(r, i, i + m, pat);
          ScanFindsLeftmost(r, i + m, pat);
        }
      }
    }
  }

  /** The first place at which two different texts of the same length differ. */
  lemma {:induction false} FirstDifference(a: string, b: string) returns (e: nat)
    requires |a| == |b| && a != b
    ensures e < |a| && a[e] != b[e] && a[..e] == b[..e]
  {
    if a[0] != b[0] {
      e := 0;
    } else {
      e := FirstDifference(a[1..], b[1..]);
      assert a[..e + 1] == [a[0]] + a[1..][..e];
      assert b[..e + 1] == [b[0]] + b[1..][..e];
      e := e + 1;
    }
  }

  lemma OccursBehind(a: string, pat: string)
    ensures OccursAt(a + pat, pat, |a|)
  {
  }

  lemma PrefixMatch(r: string, pat: string, m: nat)
    requires 1 <= m < |pat| && m < |r| && r[m] != pat[m] && r[..m] == pat[..m]
    ensures MatchAt(r, 0, pat, 1) == m
  {
    forall k | 0 <= k < m ensures r[0 + k] == pat[k] {
      assert r[..m][k] == pat[..m][k];
    }
    MatchUnique(r, 0, pat, m);
  }

  /** In the pattern preceded by its first `at` characters, the search runs into a mismatch behind
      the start of the occurrence. */
  lemma CraftedText(pat: string, at: nat, e: nat)
    requires 0 < at < |pat| && at + e < |pat| && pat[at + e] != pat[e] && pat[at..at + e] == pat[..e]
    ensures Scan(pat[..at] + pat, 0, pat) == Scan(pat[..at] + pat, at + e, pat)
  {
    var text := pat[..at] + pat;
    assert text[at + e] == pat[e];
    assert text[..at + e] == pat[..at] + pat[..e];
    assert pat[..at + e] == pat[..at] + pat[at..at + e];
    PrefixMatch(text, pat, at + e);
    assert text[0] == pat[0];
  }

  /** Where the pattern stops repeating its beginning. */
  lemma Misalignment(pat: string) returns (at: nat, e: nat)
    requires !SelfAligned(pat)
    ensures 0 < at < |pat| && 0 < e < |pat| - at && pat[at + e] != pat[e] && pat[at..at + e] == pat[..e]
  {
    at :| 0 < at < |pat| && pat[at] == pat[0] && pat[at..] != pat[..|pat| - at];
    var left, right := pat[at..], pat[..|pat| - at];
    e := FirstDifference(left, right);
    assert left[..e] == pat[at..at + e] && right[..e] == pat[..e];
    assert left[0] == pat[at] && right[0] == pat[0];
  }

  lemma CraftedMiss(pat: string, at: nat, e: nat)
    requires 0 < at < |pat| && 0 < e < |pat| - at && pat[at + e] != pat[e] && pat[at..at + e] == pat[..e]
    ensures Scan(pat[..at] + pat, 0, pat) == None
  {
    CraftedText(pat, at, e);
    var text := pat[..at] + pat;
    TooShortToScan(text, at + e, pat);
  }

  /** For any other pattern there is a text in which the search misses an occurrence. */
  lemma ScanMisses(pat: string) returns (text: string, at: nat)
    requires pat != [] && !SelfAligned(pat)
    ensures OccursAt(text, pat, at) && Scan(text, 0, pat) == None
  {
    var i, e := Misalignment(pat);
    CraftedMiss(pat, i, e);
    OccursBehind(pat[..i], pat);
    text, at := pat[..i] + pat, |pat[..i]|;
  }

  lemma TooShortToScan(r: string, i: nat, pat: string)
    requires pat != [] && i <= |r| < i + |pat|
    ensures Scan(r, i, pat) == None
  {
    if Scan(r, i, pat).Some? {
      ScanIsSound(r, i, pat);
      assert false;
    }
  }

  /** The search agrees with leftmost search on every text exactly for the self-aligned patterns. */
  lemma ScanIsLeftmostIff(pat: string)
    requires pat != []
    ensures SelfAligned(pat) <==> forall r {:trigger Scan(r, 0, pat)} :: Scan(r, 0, pat) == Leftmost(r, 0, pat)
  {
    if SelfAligned(pat) {
      forall r {:trigger Scan(r, 0, pat)} ensures Scan(r, 0, pat) == Leftmost(r, 0, pat) {
        ScanFindsLeftmost(r, 0, pat);
      }
    } else {
      var text, at := ScanMisses(pat);
      LeftmostFacts(text, 0, pat);
      assert Leftmost(text, 0, pat).Some?;
    }
  }
}
