// c_examples/read_line.c: a line reader over its own 255-byte buffer.  The operating system may
// split the stream into reads of any sizes; the results do not depend on the split.
module ReadLine {
  const BUF_SIZE := 256

  type Byte = n: int | 0 <= n < 0x100

  const NEWLINE: Byte := 10

  // ---------- what a call returns, on the whole pending input ----------

  // The length of the first line, or of the whole input when no line ends.
  function LineLength(s: seq<Byte>): (n: nat)
    ensures n <= |s| && NEWLINE !in s[..n]
    ensures n < |s| ==> s[n] == NEWLINE
  {
    if s == [] || s[0] == NEWLINE then 0 else 1 + LineLength(s[1..])
  }

  function Min(a: nat, b: nat): nat {
    if a <= b then a else b
  }

  // The next line, cut to bufLength - 2 characters, with its newline if it has one.
  function Line(s: seq<Byte>, bufLength: nat): seq<Byte>
    requires bufLength >= 2
  {
    var n := LineLength(s);
    s[..Min(n, bufLength - 2)] + if n < |s| then [NEWLINE] else []
  }

  // What is left behind that line.
  function Rest(s: seq<Byte>): seq<Byte> {
    var n := LineLength(s);
    if n < |s| then s[n + 1..] else []
  }

  // The texts of repeated calls until nothing is left, concatenated.
  function Drain(s: seq<Byte>, bufLength: nat): seq<Byte>
    requires bufLength >= 2
    decreases |s|
  {
    if s == [] then [] else Line(s, bufLength) + Drain(Rest(s), bufLength)
  }

  // Every line, without its newline, has at most max characters.
  predicate LinesFit(s: seq<Byte>, max: nat)
    decreases |s|
  {
    s == [] || (LineLength(s) <= max && LinesFit(Rest(s), max))
  }

  lemma {:induction false} DrainShorter(s: seq<Byte>, bufLength: nat)
    requires bufLength >= 2
    ensures |Drain(s, bufLength)| <= |s|
    ensures |Drain(s, bufLength)| == |s| ==> LinesFit(s, bufLength - 2)
    decreases |s|
  {
    if s != [] {
      DrainShorter(Rest(s), bufLength);
    }
  }

  lemma WholeLine(s: seq<Byte>, bufLength: nat)
    requires bufLength >= 2 && LineLength(s) <= bufLength - 2
    ensures Line(s, bufLength) + Rest(s) == s
  {
    var n := LineLength(s);
    if n < |s| {
      First(s, n);
      assert s == s[..n] + s[n..];
    }
  }

  // Repeated calls reproduce the stream if and only if every line fits.
  lemma {:induction false} DrainIsStreamIff(s: seq<Byte>, bufLength: nat)
    requires bufLength >= 2
    ensures Drain(s, bufLength) == s <==> LinesFit(s, bufLength - 2)
    decreases |s|
  {
    if s != [] {
      if LinesFit(s, bufLength - 2) {
        DrainIsStreamIff(Rest(s), bufLength);
        WholeLine(s, bufLength);
      } else {
        DrainShorter(s, bufLength);
      }
    }
  }

  // Whatever the input, the first line is what stands before its first newline: the call gives as
  // much of it as fits, and its newline, and leaves what stands behind.
  lemma LineMeaning(line: seq<Byte>, behind: seq<Byte>, bufLength: nat)
    requires bufLength >= 2 && NEWLINE !in line
    ensures var cut := if |line| <= bufLength - 2 then line else line[..bufLength - 2];
            && Line(line + [NEWLINE] + behind, bufLength) == cut + [NEWLINE]
            && Rest(line + [NEWLINE] + behind) == behind
            && Line(line, bufLength) == cut && Rest(line) == []
  {
    var s := line + [NEWLINE] + behind;
    LengthOfLine(line, behind);
    assert s[..|line|] == line && s[|line| + 1..] == behind;
    assert s[..Min(|line|, bufLength - 2)] == line[..Min(|line|, bufLength - 2)];
  }

  lemma {:induction false} LengthOfLine(line: seq<Byte>, behind: seq<Byte>)
    requires NEWLINE !in line
    ensures LineLength(line + [NEWLINE] + behind) == |line| && LineLength(line) == |line|
  {
    if line != [] {
      assert (line + [NEWLINE] + behind)[1..] == line[1..] + [NEWLINE] + behind;
      assert line[0] in line && forall c :: c in line[1..] ==> c in line;
      LengthOfLine(line[1..], behind);
    }
  }

  // Every call makes progress.  It returns 0 exactly at the end of the input, or, into a buffer that
  // only has room for a newline, for a last line without one.  No text holds a newline before its end.
  lemma LineProgress(s: seq<Byte>, bufLength: nat)
    requires bufLength >= 2
    ensures s != [] ==> |Rest(s)| < |s|
    ensures Line(s, bufLength) == [] <==> s == [] || (bufLength == 2 && NEWLINE !in s)
    ensures NEWLINE !in Line(s, bufLength)[..|Line(s, bufLength)| - if LineLength(s) < |s| then 1 else 0]
  {
    var n := LineLength(s);
    assert NEWLINE !in s[..n];
    assert n == |s| ==> s[..n] == s;
    assert n < |s| ==> s[n] in s;
    var k := Min(n, bufLength - 2);
    assert forall j :: 0 <= j < k ==> s[j] in s[..n];
  }

  // ---------- the loop ----------

  // The first characters of the line have been taken, and as many as fit are in the output.
  ghost predicate Copied(s: seq<Byte>, consumed: nat, bufLength: nat, before: seq<Byte>, out: seq<Byte>,
                         numWrite: nat) {
    && 2 <= bufLength <= |before| == |out|
    && consumed <= LineLength(s) && numWrite == Min(consumed, bufLength - 2)
    && out == s[..numWrite] + before[numWrite..]
  }

  // A text with its terminator over what was in the output before.
  function Terminated(text: seq<Byte>, before: seq<Byte>): seq<Byte>
    requires |text| < |before|
  {
    text + [0] + before[|text| + 1..]
  }

  lemma Pop(s: seq<Byte>, consumed: nat)
    requires consumed <= LineLength(s) && consumed < |s|
    ensures s[consumed..] == [s[consumed]] + s[consumed + 1..]
    ensures s[consumed] == NEWLINE <==> consumed == LineLength(s)
  {
    var n := LineLength(s);
    if consumed < n {
      NotNewline(s[..n], consumed);
    }
    First(s, consumed);
  }

  lemma First(s: seq<Byte>, i: nat)
    requires i < |s|
    ensures s[i..] == [s[i]] + s[i + 1..]
  {
  }

  lemma NotNewline(line: seq<Byte>, i: nat)
    requires NEWLINE !in line
    ensures i < |line| ==> line[i] != NEWLINE
  {
  }

  // Any other character is stored while there is room, and skipped after that.
  lemma Advance(s: seq<Byte>, consumed: nat, bufLength: nat, before: seq<Byte>, out: seq<Byte>, numWrite: nat)
    requires Copied(s, consumed, bufLength, before, out, numWrite) && consumed < |s| && s[consumed] != NEWLINE
    ensures numWrite < bufLength - 2 ==> numWrite == consumed
    ensures if numWrite < bufLength - 2
            then Copied(s, consumed + 1, bufLength, before, out[numWrite := s[consumed]], numWrite + 1)
            else Copied(s, consumed + 1, bufLength, before, out, numWrite)
  {
    Pop(s, consumed);
  }

  // A newline ends the line with one more character and the terminator.
  lemma NewlineEnds(s: seq<Byte>, consumed: nat, bufLength: nat, before: seq<Byte>, out: seq<Byte>, numWrite: nat)
    requires Copied(s, consumed, bufLength, before, out, numWrite) && consumed < |s| && s[consumed] == NEWLINE
    ensures numWrite + 1 < |out| && |Line(s, bufLength)| == numWrite + 1
    ensures out[numWrite := NEWLINE][numWrite + 1 := 0] == Terminated(Line(s, bufLength), before)
    ensures s[consumed + 1..] == Rest(s)
  {
    Pop(s, consumed);
  }

  // The end of the input ends a last line that has no newline.
  lemma EndOfInput(s: seq<Byte>, consumed: nat, bufLength: nat, before: seq<Byte>, out: seq<Byte>, numWrite: nat)
    requires Copied(s, consumed, bufLength, before, out, numWrite) && consumed == |s|
    ensures numWrite < |out| && |Line(s, bufLength)| == numWrite
    ensures out[numWrite := 0] == Terminated(Line(s, bufLength), before)
    ensures Rest(s) == []
  {
  }

  // ---------- the stream and the reader ----------

  // A file whose reads return any non-empty part of what is left, or fail.
  class Stream {
    var source: seq<Byte>

    constructor (source: seq<Byte>)
      ensures this.source == source
    {
      this.source := source;
    }

    // read(2): between 1 and max bytes, 0 only at the end, or -1.
    method Read(buffer: array<Byte>, max: nat) returns (count: int)
      requires 0 < max <= buffer.Length
      modifies this`source, buffer
      ensures -1 <= count <= max
      ensures count == -1 ==> source == old(source)
      ensures count >= 0 ==> count <= |old(source)| && source == old(source)[count..]
                             && buffer[..count] == old(source)[..count]
      ensures count == 0 ==> old(source) == []
    {
      var fails: bool := *;
      if fails {
        return -1;
      }
      if source == [] {
        return 0;
      }
      count := *;
      if !(1 <= count <= max && count <= |source|) {
        count := 1;
      }
      for i := 0 to count
        invariant source == old(source) && count <= |source|
        invariant buffer[..i] == source[..i]
      {
        buffer[i] := source[i];
      }
      source := source[count..];
    }
  }

  class LineReader {
    const stream: Stream
    const buffer: array<Byte>
    var nextChar: nat
    var end: nat

    constructor (stream: Stream)
      ensures Valid() && Pending() == stream.source && this.stream == stream && fresh(buffer)
    {
      this.stream := stream;
      buffer := new Byte[256](_ => 0);
      nextChar, end := 0, 0;
    }

    ghost predicate Valid()
      reads this
    {
      buffer.Length == BUF_SIZE && nextChar <= end < BUF_SIZE
    }

    // The input not yet returned: the rest of the buffer, then the rest of the stream.
    ghost function Pending(): seq<Byte>
      requires Valid()
      reads this, stream, buffer
    {
      buffer[nextChar..end] + stream.source
    }

    // read_line_buf_init, called when the buffer is used up.
    method Init() returns (err: int)
      requires Valid() && nextChar == end
      modifies this, stream`source, buffer
      ensures Valid() && Pending() == old(Pending())
      ensures err == 0 || err == -1
      ensures err == -1 ==> nextChar == end
      ensures err == 0 && nextChar == end ==> Pending() == []
    {
      nextChar, end := 0, 0;
      forall i | 0 <= i < buffer.Length {
        buffer[i] := 0;
      }
      var count := stream.Read(buffer, BUF_SIZE - 1);
      if count == -1 {
        return -1;
      }
      end := count;
      return 0;
    }

    // Returns the number of characters stored before the terminator, or -1 for an unusable buffer
    // or a failed read.  Without a failed read the text is the next line of the pending input, and
    // exactly that line is consumed, in whatever pieces the reads deliver it.
    method ReadLine(out: array?<Byte>, bufLength: nat) returns (numWrite: int, ghost failed: bool)
      requires Valid() && out != buffer && (out != null ==> bufLength <= out.Length)
      modifies this, stream`source, buffer, if out == null then {} else {out}
      ensures Valid()
      ensures failed ==> numWrite == -1
      ensures !failed && (bufLength <= 1 || out == null) ==> numWrite == -1 && Pending() == old(Pending())
      ensures !failed && bufLength >= 2 && out != null ==>
                var line := Line(old(Pending()), bufLength);
                && numWrite == |line| && |line| + 1 <= bufLength
                && out[..] == Terminated(line, old(out[..]))
                && Pending() == Rest(old(Pending()))
    {
      if bufLength <= 1 || out == null {
        return -1, false;
      }
      ghost var s, consumed := Pending(), 0;
      var written: nat := 0;
      while true
        invariant Valid() && Copied(s, consumed, bufLength, old(out[..]), out[..], written)
        invariant Pending() == s[consumed..]
        decreases |s| - consumed
      {
        if nextChar == end {
          var err := Init();
          if err != 0 {
            return -1, true;
          } else if nextChar == end {
            EndOfInput(s, consumed, bufLength, old(out[..]), out[..], written);
            out[written] := 0;
            return written, false;
          }
        }
        var done;
        written, consumed, done := Scan(out, bufLength, s, consumed, old(out[..]), written);
        if done {
          return written, false;
        }
      }
    }

    // Every branch of the inner loop moves past one buffered character.
    method Take() returns (c: Byte)
      requires Valid() && nextChar != end
      modifies this`nextChar
      ensures Valid() && nextChar == old(nextChar) + 1
      ensures old(Pending()) == [c] + Pending()
    {
      c := buffer[nextChar];
      nextChar := nextChar + 1;
    }

    // The inner loop: takes characters from the buffer up to a newline or the end of the buffer.
    method Scan(out: array<Byte>, bufLength: nat, ghost s: seq<Byte>, ghost consumed: nat,
                ghost before: seq<Byte>, written: nat)
      returns (numWrite: nat, ghost consumed': nat, done: bool)
      requires Valid() && out != buffer && nextChar != end
      requires Copied(s, consumed, bufLength, before, out[..], written) && Pending() == s[consumed..]
      modifies this`nextChar, out
      ensures Valid()
      ensures !done ==> Copied(s, consumed', bufLength, before, out[..], numWrite)
                        && Pending() == s[consumed'..] && consumed < consumed'
      ensures done ==> out[..] == Terminated(Line(s, bufLength), before) && numWrite == |Line(s, bufLength)|
                       && Pending() == Rest(s)
    {
      numWrite, consumed' := written, consumed;
      while nextChar != end
        invariant Valid() && Copied(s, consumed', bufLength, before, out[..], numWrite)
        invariant Pending() == s[consumed'..] && consumed <= consumed'
        invariant consumed == consumed' ==> nextChar != end
        decreases end - nextChar
      {
        var c := Take();
        Pop(s, consumed');
        if c == NEWLINE {
          NewlineEnds(s, consumed', bufLength, before, out[..], numWrite);
          out[numWrite] := c;
          out[numWrite + 1] := 0;
          return numWrite + 1, consumed', true;
        }
        Advance(s, consumed', bufLength, before, out[..], numWrite);
        if numWrite < bufLength - 2 {
          out[numWrite] := c;
          numWrite := numWrite + 1;
        }
        consumed' := consumed' + 1;
      }
      done := false;
    }
  }
}
