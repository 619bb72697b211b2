/**
 The block-buffered line reader.

 The specification is a function of the unread characters alone: `Lines` splits them into the
 non-empty newline-terminated lines.  `ReaderBuffer` reads the file in chunks of any size into one
 block that it compacts in place.
 */
module LineReader {
  import opened Wrappers

  const LINE_END: char := '\n'

  // ---------------------------------------------------------------- splitting on newlines

  /** First position from `i` on where being a newline is no longer `expected`. */
  function RunEnd(s: seq<char>, i: nat, expected: bool): (k: nat)
    requires i <= |s|
    ensures i <= k <= |s|
    decreases |s| - i
  {
    if i == |s| || (s[i] == LINE_END) != expected then i else RunEnd(s, i + 1, expected)
  }

  lemma {:induction false} RunEndFacts(s: seq<char>, i: nat, expected: bool)
    requires i <= |s|
    ensures forall j :: i <= j < RunEnd(s, i, expected) ==> (s[j] == LINE_END) == expected
    ensures RunEnd(s, i, expected) < |s| ==> (s[RunEnd(s, i, expected)] == LINE_END) != expected
    decreases |s| - i
  {
    if i < |s| && (s[i] == LINE_END) == expected {
      RunEndFacts(s, i + 1, expected);
    }
  }

  /** Number of newlines in front of the first other character. */
  function Blanks(s: seq<char>): (k: nat)
    ensures k <= |s|
  {
    RunEnd(s, 0, true)
  }

  /** Position of the first newline, or the length if there is none. */
  function LineLen(s: seq<char>): (k: nat)
    ensures k <= |s|
  {
    RunEnd(s, 0, false)
  }

  function Strip(s: seq<char>): seq<char> { s[Blanks(s)..] }

  predicate HasLine(s: seq<char>) { LineLen(Strip(s)) < |Strip(s)| }

  function FirstLine(s: seq<char>): seq<char> { Strip(s)[..LineLen(Strip(s))] }

  function Rest(s: seq<char>): (r: seq<char>)
    requires HasLine(s)
    ensures |r| < |s|
  {
    Strip(s)[LineLen(Strip(s)) + 1..]
  }

  /** Characters up to and including the newline of the first line; its blank lines count. */
  function Need(s: seq<char>): nat { Blanks(s) + LineLen(Strip(s)) + 1 }

  /** All non-empty newline-terminated lines, in order. */
  function Lines(s: seq<char>): seq<seq<char>> {
    if HasLine(s) then [FirstLine(s)] + Lines(Rest(s)) else []
  }

  /** Every line fits into a block together with its newline and the blank lines directly before it. */
  predicate Fits(s: seq<char>, block: nat) {
    HasLine(s) ==> Need(s) <= block && Fits(Rest(s), block)
  }

  lemma BlanksUnique(s: seq<char>, k: nat)
    requires k <= |s| && (forall i :: 0 <= i < k ==> s[i] == LINE_END) && (k < |s| ==> s[k] != LINE_END)
    ensures Blanks(s) == k
  {
    RunEndFacts(s, 0, true);
  }

  lemma LineLenUnique(s: seq<char>, k: nat)
    requires k <= |s| && (forall i :: 0 <= i < k ==> s[i] != LINE_END) && (k < |s| ==> s[k] == LINE_END)
    ensures LineLen(s) == k
  {
    RunEndFacts(s, 0, false);
  }

  lemma LineFound(s: seq<char>, b: nat, e: nat)
    requires b < e < |s| && s[e] == LINE_END
    requires (forall i :: 0 <= i < b ==> s[i] == LINE_END) && forall i :: b <= i < e ==> s[i] != LINE_END
    ensures Blanks(s) == b && HasLine(s) && LineLen(Strip(s)) == e - b
  {
    BlanksUnique(s, b);
    LineLenUnique(Strip(s), e - b);
  }

  lemma NoLineFound(s: seq<char>, b: nat)
    requires b <= |s|
    requires (forall i :: 0 <= i < b ==> s[i] == LINE_END) && forall i :: b <= i < |s| ==> s[i] != LINE_END
    ensures Blanks(s) == b && !HasLine(s)
  {
    BlanksUnique(s, b);
    LineLenUnique(Strip(s), |Strip(s)|);
  }

  /** What `Lines` is: newlines in front count for nothing, a non-empty run up to a newline is a line, and an
      unfinished one is not. */
  lemma LinesInPlainTerms(t: seq<char>, s: seq<char>)
    requires '\n' !in t
    ensures Lines(t) == []
    ensures Lines(['\n'] + s) == Lines(s)
    ensures t != [] ==> Lines(t + (['\n'] + s)) == [t] + Lines(s)
  {
    NoLineFound(t, 0);
    OneBlankMore(s);
    if t != [] {
      var r := t + (['\n'] + s);
      LineFound(r, 0, |t|);
      assert r[..|t|] == t && r[|t| + 1..] == s && Strip(r) == r;
    }
  }

  lemma OneBlankMore(s: seq<char>)
    ensures Lines(['\n'] + s) == Lines(s)
  {
    RunEndFacts(s, 0, true);
    BlanksUnique(['\n'] + s, Blanks(s) + 1);
    assert Strip(['\n'] + s) == Strip(s);
  }

  /** A line found in a prefix is the line of the whole. */
  lemma LineInPrefix(a: seq<char>, b: seq<char>)
    requires HasLine(a)
    ensures HasLine(a + b) && Need(a + b) == Need(a)
  {
    RunEndFacts(a, 0, true);
    RunEndFacts(Strip(a), 0, false);
    BlanksUnique(a + b, Blanks(a));
    assert Strip(a + b) == Strip(a) + b;
    LineLenUnique(Strip(a) + b, LineLen(Strip(a)));
  }

  /** A prefix without a line has none of the whole's lines finished inside it. */
  lemma NoLineInPrefix(a: seq<char>, b: seq<char>)
    requires !HasLine(a) && HasLine(a + b)
    ensures Need(a + b) > |a|
  {
    RunEndFacts(a, 0, true);
    if Blanks(a) < |a| {
      BlanksUnique(a + b, Blanks(a));
      assert Strip(a + b) == Strip(a) + b;
      RunEndFacts(Strip(a), 0, false);
      RunEndFacts(Strip(a) + b, 0, false);
      assert (Strip(a) + b)[LineLen(Strip(a) + b)] == LINE_END;
    } else {
      RunEndFacts(a + b, 0, true);
      assert forall i :: 0 <= i < |a| ==> (a + b)[i] == LINE_END;
    }
  }

  /** Dropping newlines in front changes nothing but the space the first line needs. */
  lemma DropBlanks(s: seq<char>, k: nat)
    requires k <= Blanks(s)
    ensures Strip(s[k..]) == Strip(s) && Need(s[k..]) == Need(s) - k
  {
    RunEndFacts(s, 0, true);
    BlanksUnique(s[k..], Blanks(s) - k);
    assert s[k..][Blanks(s) - k..] == s[Blanks(s)..];
  }

  lemma NewlineInFront(s: seq<char>)
    requires s != [] && s[0] == LINE_END
    ensures Blanks(s) > 0
  {
  }

  lemma StripPrefix(a: seq<char>, b: seq<char>)
    ensures Strip(Strip(a) + b) == Strip(a + b) && Need(Strip(a) + b) == Need(a + b) - Blanks(a)
  {
    RunEndFacts(a, 0, true);
    RunEndFacts(a + b, 0, true);
    assert Blanks(a) <= Blanks(a + b) by {
      assert forall i :: 0 <= i < Blanks(a) ==> (a + b)[i] == LINE_END;
    }
    DropBlanks(a + b, Blanks(a));
    assert (a + b)[Blanks(a)..] == Strip(a) + b;
  }

  lemma Glue(before: seq<char>, rest: seq<char>, k: nat)
    requires k <= |rest|
    ensures before + rest[..k] + rest[k..] == before + rest
  {
    assert rest[..k] + rest[k..] == rest;
  }

  // ---------------------------------------------------------------- the file

  /** An open file or pipe.  `Read` may return any positive number of characters up to the amount
      asked for; a file with `oneByOne` set always returns a single one.  With `mayFail` it may also
      return -1 for an error. */
  class InputFile {
    const oneByOne: bool
    const mayFail: bool
    var rest: seq<char>

    constructor (content: seq<char>, oneByOne: bool, mayFail: bool)
      ensures rest == content && this.oneByOne == oneByOne && this.mayFail == mayFail
    {
      rest := content;
      this.oneByOne, this.mayFail := oneByOne, mayFail;
    }

    method Read(buffer: array<char>, offset: nat, amount: nat) returns (k: int)
      requires offset + amount <= buffer.Length
      modifies this`rest, buffer
      ensures -1 <= k <= amount && k <= |old(rest)| && (k < 0 ==> mayFail)
      ensures amount > 0 && old(rest) != [] ==> k != 0 && (oneByOne ==> k <= 1)
      ensures rest == if k < 0 then old(rest) else old(rest)[k..]
      ensures k >= 0 ==> buffer[..offset + k] == old(buffer[..offset]) + old(rest)[..k]
    {
      var fails: bool := *;
      if mayFail && fails {
        return -1;
      }
      var most := if amount < |rest| then amount else |rest|;
      if most == 0 {
        k := 0;
      } else if oneByOne {
        k := 1;
      } else {
        k :| 1 <= k <= most;
      }
      forall i | 0 <= i < k {
        buffer[offset + i] := rest[i];
      }
      rest := rest[k..];
    }
  }

  // ---------------------------------------------------------------- the buffer

  class ReaderBuffer {
    const buffer: array<char>
    const file: InputFile
    var curReadingPos: nat
    var size: nat
    var nextLineEnd: nat

    ghost predicate Valid()
      reads this, buffer
    {
      && buffer.Length > 0
      && curReadingPos <= size <= buffer.Length
      && (nextLineEnd > 0 ==>
            && curReadingPos < nextLineEnd < size && buffer[nextLineEnd] == LINE_END
            && forall i :: curReadingPos <= i < nextLineEnd ==> buffer[i] != LINE_END)
    }

    /** What is in the block and not handed out yet. */
    ghost function Kept(): seq<char>
      requires curReadingPos <= size <= buffer.Length
      reads this, buffer
    {
      buffer[curReadingPos..size]
    }

    /** Everything not handed out yet. */
    ghost function Unread(): seq<char>
      requires curReadingPos <= size <= buffer.Length
      reads this, buffer, file
    {
      Kept() + file.rest
    }

    constructor (blockSize: nat, file: InputFile)
      requires blockSize > 0
      ensures Valid() && fresh(buffer) && buffer.Length == blockSize && this.file == file
      ensures Kept() == [] && nextLineEnd == 0
    {
      buffer := new char[blockSize];
      this.file := file;
      curReadingPos, size, nextLineEnd := 0, 0, 0;
    }

    /** Skips the newlines at the cursor and looks for the end of the line after them. */
    method FindLineEnd(start: nat, end: nat) returns (r: int)
      requires start == curReadingPos <= end <= buffer.Length
      modifies this`curReadingPos
      ensures curReadingPos == start + Blanks(buffer[start..end]) <= end
      ensures HasLine(buffer[start..end]) <==> r != -1
      ensures r != -1 ==> curReadingPos < r < end && buffer[r] == LINE_END
                          && forall i :: curReadingPos <= i < r ==> buffer[i] != LINE_END
    {
      ghost var first, s := start, buffer[start..end];
      var pos := start;
      while pos < end
        invariant first <= curReadingPos <= pos <= end
        invariant forall i :: 0 <= i < curReadingPos - first ==> s[i] == LINE_END
        invariant forall i :: curReadingPos <= i < pos ==> s[i - first] == buffer[i] != LINE_END
      {
        if buffer[pos] == LINE_END {
          if pos == curReadingPos {
            curReadingPos := curReadingPos + 1;
          } else {
            LineFound(s, curReadingPos - first, pos - first);
            return pos;
          }
        }
        pos := pos + 1;
      }
      NoLineFound(s, curReadingPos - first);
      r := -1;
    }

    /** HasStillLineEnd with CalculateNextLineEnd; `feof` never holds because reads bypass stdio. */
    method HasStillLineEnd() returns (found: bool)
      requires Valid()
      modifies this`curReadingPos, this`nextLineEnd
      ensures Valid() && found == (nextLineEnd > 0) == HasLine(old(Kept()))
      ensures curReadingPos >= old(curReadingPos) && Kept() == Strip(old(Kept()))
    {
      ghost var kept := Kept();
      if nextLineEnd > 0 {
        AtCursor(kept, nextLineEnd - curReadingPos);
      } else {
        var tmp := FindLineEnd(curReadingPos, size);
        assert Kept() == Strip(kept);
        nextLineEnd := if tmp > 0 then tmp else 0;
      }
      found := size > 0 && curReadingPos < size && nextLineEnd > 0 && curReadingPos < nextLineEnd;
    }

    /** Moves the unread characters to the front of the block. */
    method Compact()
      requires Valid()
      modifies this`size, buffer
      ensures size == old(size - curReadingPos) && buffer[..size] == old(Kept())
    {
      ghost var kept := Kept();
      if curReadingPos != size {
        forall i | 0 <= i < size - curReadingPos {
          buffer[i] := buffer[curReadingPos + i];
        }
      }
      size := size - curReadingPos;
      assert buffer[..size] == kept;
    }

    /** One read into the free part of the block; -1 for an error. */
    method ReadMore(amountToRead: nat) returns (actuallyRead: int)
      requires size + amountToRead == buffer.Length
      modifies this`size, buffer, file`rest
      ensures -1 <= actuallyRead <= amountToRead && (actuallyRead < 0 ==> file.mayFail)
      ensures actuallyRead >= 0 ==>
        && size == old(size) + actuallyRead && buffer[..size] + file.rest == old(buffer[..size] + file.rest)
        && |file.rest| == |old(file.rest)| - actuallyRead
        && (amountToRead > 0 && old(file.rest) != [] ==> actuallyRead > 0)
        && (file.oneByOne && !HasLine(old(buffer[..size])) && HasLine(buffer[..size]) ==> Need(buffer[..size]) == size)
    {
      ghost var before, rest := buffer[..size], file.rest;
      actuallyRead := file.Read(buffer, size, amountToRead);
      if actuallyRead < 0 {
        return;
      }
      size := size + actuallyRead;
      Glue(before, rest, actuallyRead);
      if file.oneByOne && !HasLine(before) && HasLine(buffer[..size]) {
        NoLineInPrefix(before, rest[..actuallyRead]);
      }
    }

    /** Compacts the block and reads until a line is complete, the block is full or the file has
        ended; throws on a reading error. */
    method NextBlock() returns (o: Outcome)
      requires Valid() && nextLineEnd == 0
      modifies this`curReadingPos, this`size, buffer, file`rest
      ensures o == Fail ==> file.mayFail
      ensures o == Pass ==> Valid() && curReadingPos == 0
      ensures o == Pass ==> Kept() + file.rest == old(Unread())
      ensures o == Pass ==> HasLine(Kept()) || size == buffer.Length || file.rest == []
      ensures o == Pass ==> file.oneByOne && !HasLine(old(Kept())) && HasLine(Kept()) ==> Need(Kept()) == size
    {
      ghost var unread, kept := Unread(), Kept();
      Compact();
      var amountToRead := buffer.Length - size;
      while true
        invariant size + amountToRead == buffer.Length && nextLineEnd == 0
        invariant 0 <= size <= buffer.Length
        invariant buffer[..size] + file.rest == unread
        invariant file.oneByOne && !HasLine(kept) ==> !HasLine(buffer[..size])
        decreases |file.rest|
      {
        var actuallyRead := ReadMore(amountToRead);
        if actuallyRead < 0 {
          return Fail;
        }
        amountToRead := amountToRead - actuallyRead;
        curReadingPos := 0;
        assert buffer[0..size] == buffer[..size];
        var lineEnd := FindLineEnd(0, size);
        if !(lineEnd < 0 && amountToRead > 0 && actuallyRead > 0) {
          break;
        }
      }
      curReadingPos := 0;
      assert Kept() == buffer[..size];
      o := Pass;
    }

    /** What the next block starts with: the unread characters without the newlines the cursor has
        already passed in the block. */
    ghost function Pending(): seq<char>
      requires curReadingPos <= size <= buffer.Length
      reads this, buffer, file
    {
      Strip(Kept()) + file.rest
    }

    /** The first part of HasStillLine: a line that the block already holds. */
    method HasBufferedLine() returns (found: bool)
      requires Valid()
      modifies this`curReadingPos, this`nextLineEnd
      ensures Valid() && found == (nextLineEnd > 0) == HasLine(old(Kept()))
      ensures Kept() == Strip(old(Kept()))
    {
      ghost var kept := Kept();
      while curReadingPos < size && buffer[curReadingPos] == LINE_END
        invariant Valid()
        invariant Kept() == kept || (Kept() == Strip(kept) && !HasLine(kept) && nextLineEnd == 0)
        decreases size - curReadingPos
      {
        NewlineInFront(Kept());
        DropBlanks(kept, 1);
        curReadingPos := curReadingPos + 1;
        assert Kept() == kept[1..];
        var atEnd := HasStillLineEnd();
        if atEnd {
          return true;
        }
      }
      DropBlanks(kept, Blanks(kept));
      found := HasStillLineEnd();
    }

    /** The line that was found, seen in the unread part of the block. */
    lemma LineInBlock()
      requires Valid() && nextLineEnd > 0
      ensures 0 < nextLineEnd - curReadingPos < |Kept()| && Kept()[nextLineEnd - curReadingPos] == LINE_END
      ensures forall i :: 0 <= i < nextLineEnd - curReadingPos ==> Kept()[i] != LINE_END
    {
    }

    /** The second part of HasStillLine: the next block. */
    method HasLineInNextBlock() returns (o: Outcome, found: bool)
      requires Valid() && nextLineEnd == 0 && !HasLine(Kept())
      modifies this, buffer, file`rest
      ensures o == Fail ==> file.mayFail
      ensures o == Pass ==> Valid() && found == (nextLineEnd > 0)
      ensures o == Pass ==> found == (HasLine(old(Unread())) && Need(old(Unread())) <= buffer.Length)
      ensures o == Pass ==> Strip(Unread()) == Strip(old(Unread()))
      ensures o == Pass && found && file.oneByOne ==> nextLineEnd + 1 == size
    {
      ghost var unread := Unread();
      o := NextBlock();
      if o == Fail {
        return o, false;
      }
      ghost var block, rest := Kept(), file.rest;
      BlockDecides(unread, block, rest, buffer.Length);
      found := HasStillLineEnd();
      assert Unread() == Strip(block) + rest;
      if found && file.oneByOne {
        LineInBlock();
        LineAtEnd(block, Kept(), nextLineEnd - curReadingPos);
      }
    }

    method HasStillLine(streamGood: bool) returns (o: Outcome, found: bool)
      requires Valid()
      modifies this, buffer, file`rest
      ensures o == Fail ==> file.mayFail && streamGood && !HasLine(old(Kept()))
      ensures o == Pass ==> Valid() && found == (nextLineEnd > 0)
      ensures o == Pass ==>
        found == (HasLine(old(Kept()))
                  || (streamGood && HasLine(old(Pending())) && Need(old(Pending())) <= buffer.Length))
      ensures o == Pass ==> Strip(Unread()) == Strip(old(Unread()))
      ensures o == Pass && found && file.oneByOne && !HasLine(old(Kept())) ==> nextLineEnd + 1 == size
    {
      ghost var kept, rest := Kept(), file.rest;
      StripPrefix(kept, rest);
      o := Pass;
      found := HasBufferedLine();
      if found || !streamGood {
        return;
      }
      assert !HasLine(Kept()) by { DropBlanks(kept, Blanks(kept)); }
      o, found := HasLineInNextBlock();
    }

    /** Steps over the line at the cursor. */
    method TakeLine() returns (start: nat, length: nat)
      requires Valid() && nextLineEnd > 0
      modifies this`curReadingPos, this`nextLineEnd
      ensures Valid() && nextLineEnd == 0
      ensures HasLine(old(Unread())) && Unread() == Rest(old(Unread()))
      ensures start + length < buffer.Length && buffer[start + length] == LINE_END
      ensures buffer[start..start + length] == FirstLine(old(Unread()))
      ensures old(nextLineEnd) + 1 == size ==> Kept() == []
    {
      ghost var kept := Kept();
      start, length := curReadingPos, nextLineEnd - curReadingPos;
      assert nextLineEnd < size && buffer[start + length] == LINE_END && kept[..length] == buffer[start..start + length];
      assert HasLine(Unread()) && FirstLine(Unread()) == kept[..length] && Rest(Unread()) == kept[length + 1..] + file.rest by {
        LineInBlock();
        HandOut(kept, file.rest, length);
      }
      curReadingPos := nextLineEnd + 1;
      nextLineEnd := 0;
      assert Kept() == kept[length + 1..];
    }

    /** One line: its place in the block, where a newline follows it. */
    method NextHandler(streamGood: bool) returns (o: Outcome, found: bool, start: nat, length: nat)
      requires Valid()
      modifies this, buffer, file`rest
      ensures o == Fail ==> file.mayFail && streamGood && !HasLine(old(Kept()))
      ensures o == Pass ==> Valid() && nextLineEnd == 0
      ensures o == Pass ==>
        found == (HasLine(old(Kept()))
                  || (streamGood && HasLine(old(Pending())) && Need(old(Pending())) <= buffer.Length))
      ensures o == Pass && found ==> HasLine(old(Unread())) && Unread() == Rest(old(Unread()))
      ensures o == Pass && found ==> start + length < buffer.Length && buffer[start + length] == LINE_END
                                     && buffer[start..start + length] == FirstLine(old(Unread()))
      ensures o == Pass && !found ==> Strip(Unread()) == Strip(old(Unread()))
      ensures o == Pass && file.oneByOne && !HasLine(old(Kept())) && found ==> Kept() == []
    {
      start, length := 0, 0;
      ghost var unread := Unread();
      o, found := HasStillLine(streamGood);
      if o == Pass && found {
        SameLine(unread, Unread());
        start, length := TakeLine();
      }
    }
  }

  lemma LineAtEnd(block: seq<char>, line: seq<char>, length: nat)
    requires HasLine(block) && Need(block) == |block| && line == Strip(block)
    requires 0 < length < |line| && line[length] == LINE_END && forall i :: 0 <= i < length ==> line[i] != LINE_END
    ensures length + 1 == |line|
  {
    LineLenUnique(line, length);
  }

  /** After NextBlock: whether the block holds a line depends on the unread characters alone. */
  lemma BlockDecides(unread: seq<char>, block: seq<char>, rest: seq<char>, blockSize: nat)
    requires block + rest == unread && |block| <= blockSize
    requires HasLine(block) || |block| == blockSize || rest == []
    ensures HasLine(block) <==> HasLine(unread) && Need(unread) <= blockSize
    ensures Strip(Strip(block) + rest) == Strip(unread)
  {
    StripPrefix(block, rest);
    if HasLine(block) {
      LineInPrefix(block, rest);
    } else if HasLine(block + rest) {
      NoLineInPrefix(block, rest);
      assert block + [] == block;
    }
  }

  /** A sequence that starts with a line of `length` characters. */
  lemma AtCursor(s: seq<char>, length: nat)
    requires 0 < length < |s| && s[length] == LINE_END && forall i :: 0 <= i < length ==> s[i] != LINE_END
    ensures Strip(s) == s && HasLine(s) && FirstLine(s) == s[..length] && Rest(s) == s[length + 1..]
  {
    BlanksUnique(s, 0);
    LineLenUnique(s, length);
  }

  lemma SameLine(a: seq<char>, b: seq<char>)
    requires Strip(a) == Strip(b)
    ensures HasLine(a) <==> HasLine(b)
    ensures HasLine(a) ==> FirstLine(a) == FirstLine(b) && Rest(a) == Rest(b)
  {
  }

  lemma HandOut(kept: seq<char>, rest: seq<char>, length: nat)
    requires 0 < length < |kept| && kept[length] == LINE_END
    requires forall i :: 0 <= i < length ==> kept[i] != LINE_END
    ensures Strip(kept + rest) == kept + rest && HasLine(kept + rest)
    ensures FirstLine(kept + rest) == kept[..length] && Rest(kept + rest) == kept[length + 1..] + rest
  {
    AtCursor(kept + rest, length);
  }

  // ---------------------------------------------------------------- reading a whole file

  /** Between two calls: what has come out, and what the rest still has to satisfy. */
  ghost predicate Progress(content: seq<char>, lines: seq<seq<char>>, unread: seq<char>, block: nat, oneByOne: bool) {
    && lines + Lines(unread) == Lines(content)
    && (Fits(content, block) ==> Fits(unread, block))
    && (oneByOne && Fits(unread, block) ==> Fits(content, block))
  }

  /** What NextHandler reports, as a function of the block's unread part and of the file. */
  ghost predicate Reports(kept: seq<char>, rest: seq<char>, block: nat, found: bool) {
    found == (HasLine(kept) || (HasLine(Strip(kept) + rest) && Need(Strip(kept) + rest) <= block))
  }

  lemma AfterLine(content: seq<char>, lines: seq<seq<char>>, kept: seq<char>, rest: seq<char>, block: nat,
                  oneByOne: bool)
    requires Progress(content, lines, kept + rest, block, oneByOne) && Reports(kept, rest, block, true)
    requires HasLine(kept + rest) && (oneByOne ==> kept == [])
    ensures Progress(content, lines + [FirstLine(kept + rest)], Rest(kept + rest), block, oneByOne)
  {
    var unread := kept + rest;
    assert lines + ([FirstLine(unread)] + Lines(Rest(unread))) == lines + [FirstLine(unread)] + Lines(Rest(unread));
    if oneByOne {
      assert unread == Strip(kept) + rest;
    }
  }

  lemma AtEnd(content: seq<char>, lines: seq<seq<char>>, kept: seq<char>, rest: seq<char>, block: nat, oneByOne: bool)
    requires Progress(content, lines, kept + rest, block, oneByOne) && Reports(kept, rest, block, false)
    requires oneByOne ==> kept == []
    ensures lines <= Lines(content)
    ensures Fits(content, block) ==> lines == Lines(content)
    ensures oneByOne ==> (lines == Lines(content) <==> Fits(content, block))
  {
    StripPrefix(kept, rest);
    assert lines + [] == lines;
    if oneByOne {
      assert kept + rest == Strip(kept) + rest;
    }
  }

  /**
   Reads until NextHandler reports no more lines, or throws.  Whatever the chunks, only lines of the file
   come out, in order, and without errors all of them if each fits into a block.  If the file comes one
   character at a time, fitting is also necessary.
   */
  method ReadAll(content: seq<char>, blockSize: nat, oneByOne: bool, mayFail: bool) returns (o: Outcome, lines: seq<seq<char>>)
    requires blockSize > 0
    ensures lines <= Lines(content) && (!mayFail ==> o == Pass)
    ensures o == Pass && Fits(content, blockSize) ==> lines == Lines(content)
    ensures o == Pass && oneByOne ==> (lines == Lines(content) <==> Fits(content, blockSize))
  {
    var file := new InputFile(content, oneByOne, mayFail);
    var reader := new ReaderBuffer(blockSize, file);
    lines := [];
    assert reader.Unread() == content;
    while true
      invariant reader.Valid() && reader.file == file && reader.buffer.Length == blockSize && fresh(reader.buffer)
      invariant Progress(content, lines, reader.Unread(), blockSize, oneByOne)
      invariant oneByOne ==> reader.Kept() == []
      decreases |reader.Unread()|
    {
      ghost var kept, rest := reader.Kept(), file.rest;
      var found, start, length;
      o, found, start, length := reader.NextHandler(true);
      if o == Fail {
        return;
      }
      assert Reports(kept, rest, blockSize, found);
      if !found {
        AtEnd(content, lines, kept, rest, blockSize, oneByOne);
        return;
      }
      AfterLine(content, lines, kept, rest, blockSize, oneByOne);
      lines := lines + [reader.buffer[start..start + length]];
    }
  }
}
