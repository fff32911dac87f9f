/** The journal's backward line reader: fixed-size chunks are read from the end
    of a file, and a line longer than the event bound is reported once, as None,
    without ever being held in memory. */
module ReverseLines {
  import opened Common

  const MAX_EVENT_BYTES: nat := 8192

  type Line = seq<byte>

  /** Python's `split(b"\n")`: the pieces between newlines, always at least one. */
  function Split(s: seq<byte>): (pieces: seq<Line>)
    ensures |pieces| >= 1
  {
    if s == [] then [[]]
    else
      var rest := Split(s[1..]);
      if s[0] == NEWLINE then [[]] + rest
      else [[s[0]] + rest[0]] + rest[1..]
  }

  function Join(pieces: seq<Line>): seq<byte>
    requires |pieces| >= 1
  {
    if |pieces| == 1 then pieces[0]
    else pieces[0] + [NEWLINE] + Join(pieces[1..])
  }

  /** Split is the only way to cut the bytes at exactly the newlines. */
  lemma {:induction false} SplitIsTheUniqueCut(s: seq<byte>)
    ensures Join(Split(s)) == s
    ensures forall i :: 0 <= i < |Split(s)| ==> NEWLINE !in Split(s)[i]
  {
    if s != [] {
      SplitIsTheUniqueCut(s[1..]);
      var rest := Split(s[1..]);
      if s[0] == NEWLINE {
        assert Split(s)[1..] == rest;
      } else {
        assert Split(s)[1..] == rest[1..];
        if |rest| > 1 {
          assert Join(Split(s)) == [s[0]] + Join(rest);
        }
      }
      assert s == [s[0]] + s[1..];
    }
  }

  /** What one line is reported as: empty lines are skipped, oversized ones are None. */
  function Report(line: Line): seq<Option<Line>> {
    if line == [] then []
    else if |line| <= MAX_EVENT_BYTES then [Some(line)]
    else [None]
  }

  /** The reports of some lines, last line first. */
  function Newest(lines: seq<Line>): seq<Option<Line>> {
    if lines == [] then [] else Newest(lines[1..]) + Report(lines[0])
  }

  /** The whole-file meaning of the reader. */
  function Reading(content: seq<byte>): seq<Option<Line>> {
    Newest(Split(content))
  }

  lemma {:induction false} NewestConcat(a: seq<Line>, b: seq<Line>)
    ensures Newest(a + b) == Newest(b) + Newest(a)
  {
    if a == [] {
      assert a + b == b;
    } else {
      NewestConcat(a[1..], b);
      assert (a + b)[1..] == a[1..] + b;
      Assoc(Newest(b), Newest(a[1..]), Report(a[0]));
    }
  }

  /** Two piece lists with the last piece of one and the first of the other joined. */
  function Glue(pa: seq<Line>, pb: seq<Line>): seq<Line>
    requires |pa| >= 1 && |pb| >= 1
  {
    pa[..|pa| - 1] + [pa[|pa| - 1] + pb[0]] + pb[1..]
  }

  lemma GlueHead(c: byte, rest: seq<Line>, pb: seq<Line>)
    requires |rest| >= 1 && |pb| >= 1
    ensures var glued := Glue(rest, pb);
            Glue([[c] + rest[0]] + rest[1..], pb) == [[c] + glued[0]] + glued[1..]
  {
    var longer := [[c] + rest[0]] + rest[1..];
    if |rest| == 1 {
      assert ([c] + rest[0]) + pb[0] == [c] + (rest[0] + pb[0]);
    } else {
      assert longer[..|longer| - 1] == [[c] + rest[0]] + rest[1..|rest| - 1];
    }
  }

  lemma GlueOpen(pb: seq<Line>)
    requires |pb| >= 1
    ensures Glue([[]], pb) == pb
  {
    assert [] + pb[0] == pb[0];
  }

  lemma GlueEmpty(rest: seq<Line>, pb: seq<Line>)
    requires |rest| >= 1 && |pb| >= 1
    ensures Glue([[]] + rest, pb) == [[]] + Glue(rest, pb)
  {
    assert ([[]] + rest)[..|rest|] == [[]] + rest[..|rest| - 1];
  }

  lemma {:induction false} SplitConcat(a: seq<byte>, b: seq<byte>)
    ensures Split(a + b) == Glue(Split(a), Split(b))
  {
    if a == [] {
      assert a + b == b;
      GlueOpen(Split(b));
    } else {
      SplitConcat(a[1..], b);
      assert (a + b)[0] == a[0] && (a + b)[1..] == a[1..] + b;
      GlueEmpty(Split(a[1..]), Split(b));
      GlueHead(a[0], Split(a[1..]), Split(b));
    }
  }

  lemma SplitNoNewline(s: seq<byte>)
    requires NEWLINE !in s
    ensures Split(s) == [s]
  {
    if s != [] {
      SplitNoNewline(s[1..]);
      assert s == [s[0]] + s[1..];
    }
  }

  lemma ReadingOneLine(line: Line)
    requires NEWLINE !in line
    ensures Reading(line) == Report(line)
  {
    SplitNoNewline(line);
    assert Newest([line][1..]) == [];
  }

  lemma NewestGlue(pa: seq<Line>, pb: seq<Line>)
    requires |pa| >= 1 && |pb| >= 1
    ensures Newest(Glue(pa, pb)) == Newest(pb[1..]) + Newest(Glue(pa, [pb[0]]))
  {
    assert Glue(pa, pb) == Glue(pa, [pb[0]]) + pb[1..];
    NewestConcat(Glue(pa, [pb[0]]), pb[1..]);
  }

  /** Reading a file whose tail is b needs b's complete lines first and then the
      file in which only b's first, still open, line is left. */
  lemma ReadingConcat(a: seq<byte>, b: seq<byte>)
    ensures Reading(a + b) == Newest(Split(b)[1..]) + Reading(a + Split(b)[0])
  {
    SplitConcat(a, b);
    SplitConcat(a, Split(b)[0]);
    SplitIsTheUniqueCut(b);
    SplitNoNewline(Split(b)[0]);
    NewestGlue(Split(a), Split(b));
  }

  /** Cutting at a newline leaves the two sides independent. */
  lemma ReadingAtNewline(a: seq<byte>, b: seq<byte>)
    ensures Reading(a + [NEWLINE] + b) == Reading(b) + Reading(a)
  {
    var pa, pb := Split(a), Split(b);
    var tail := [NEWLINE] + b;
    assert tail[1..] == b;
    assert Split(tail) == [[]] + pb;
    ReadingConcat(a, tail);
    assert a + [NEWLINE] + b == a + tail;
    assert Split(tail)[1..] == pb;
    assert a + Split(tail)[0] == a;
  }

  /** `bytes.rfind(b"\n")`, None for the -1 of the original. */
  method RFind(block: seq<byte>) returns (at: Option<nat>)
    ensures at.None? ==> NEWLINE !in block
    ensures at.Some? ==> at.value < |block| && block[at.value] == NEWLINE && NEWLINE !in block[at.value + 1..]
  {
    var i := |block|;
    while i > 0
      invariant 0 <= i <= |block|
      invariant NEWLINE !in block[i..]
    {
      if block[i - 1] == NEWLINE {
        return Some(i - 1);
      }
      i := i - 1;
    }
    return None;
  }

  method EmitReversed(lines: seq<Line>) returns (out: seq<Option<Line>>)
    ensures out == Newest(lines)
  {
    out := [];
    var i := |lines|;
    while i > 0
      invariant 0 <= i <= |lines|
      invariant out == Newest(lines[i..])
    {
      i := i - 1;
      assert lines[i..][1..] == lines[i + 1..];
      if lines[i] != [] {
        out := out + (if |lines[i]| <= MAX_EVENT_BYTES then [Some(lines[i])] else [None]);
      }
    }
    assert lines[0..] == lines;
  }

  /** An oversized open line ends at the newline at block[at]. */
  lemma LongLineEnds(before: seq<byte>, block: seq<byte>, at: nat, open: seq<byte>)
    requires at < |block| && block[at] == NEWLINE
    requires NEWLINE !in block[at + 1..] && NEWLINE !in open && |open| > MAX_EVENT_BYTES
    ensures Reading(before + (block + open)) == [None] + Reading(before + block[..at])
  {
    var long := block[at + 1..] + open;
    assert before + (block + open) == (before + block[..at]) + [NEWLINE] + long;
    ReadingAtNewline(before + block[..at], long);
    ReadingOneLine(long);
  }

  /** What the reader carries from one chunk to the next: the open line itself,
      or only the fact that it is already too long. */
  ghost predicate Carries(open: seq<byte>, remainder: seq<byte>, oversized: bool) {
    && NEWLINE !in open
    && if oversized then |open| > MAX_EVENT_BYTES && remainder == []
       else remainder == open && |open| <= MAX_EVENT_BYTES
  }

  /** One chunk that holds no undecided oversized line. */
  method SplitChunk(block: seq<byte>, remainder: seq<byte>, ghost before: seq<byte>)
    returns (out: seq<Option<Line>>, remainder': seq<byte>, oversized: bool, ghost open: seq<byte>)
    ensures Carries(open, remainder', oversized)
    ensures Reading(before + (block + remainder)) == out + Reading(before + open)
  {
    var lines := Split(block + remainder);
    ReadingConcat(before, block + remainder);
    SplitIsTheUniqueCut(block + remainder);
    open := lines[0];
    out := EmitReversed(lines[1..]);
    oversized := |lines[0]| > MAX_EVENT_BYTES;
    remainder' := if oversized then [] else lines[0];
  }

  /** The loop body of the reader, for one chunk. */
  method ReadChunk(block: seq<byte>, remainder: seq<byte>, oversized: bool,
                   ghost before: seq<byte>, ghost open: seq<byte>)
    returns (out: seq<Option<Line>>, remainder': seq<byte>, oversized': bool, ghost open': seq<byte>)
    requires Carries(open, remainder, oversized)
    ensures Carries(open', remainder', oversized')
    ensures Reading(before + (block + open)) == out + Reading(before + open')
  {
    if !oversized {
      out, remainder', oversized', open' := SplitChunk(block, remainder, before);
    } else {
      var boundary := RFind(block);
      if boundary.None? {
        out, remainder', oversized', open' := [], [], true, block + open;
        ghost var older := Reading(before + open');
        assert [] + older == older;
      } else {
        LongLineEnds(before, block, boundary.value, open);
        assert block[..boundary.value] + [] == block[..boundary.value];
        var rest;
        rest, remainder', oversized', open' := SplitChunk(block[..boundary.value], [], before);
        out := [None] + rest;
        ghost var older := Reading(before + open');
        assert [None] + (rest + older) == out + older;
      }
    }
  }

  /** `_iter_reverse_lines`. The reports equal the whole-file reading for every
      chunk size, and peak bounds the bytes carried from one chunk to the next. */
  method IterReverseLines(content: seq<byte>, chunkSize: nat) returns (out: seq<Option<Line>>, peak: nat)
    requires chunkSize >= 1
    ensures out == Reading(content)
    ensures peak <= MAX_EVENT_BYTES
  {
    out, peak := [], 0;
    var position := |content|;
    var remainder: seq<byte> := [];
    var oversized := false;
    ghost var open: seq<byte> := [];
    assert content[..position] + open == content;
    while position > 0
      invariant 0 <= position <= |content|
      invariant Carries(open, remainder, oversized)
      invariant peak <= MAX_EVENT_BYTES
      invariant Reading(content) == out + Reading(content[..position] + open)
    {
      var amount := Min(chunkSize, position);
      ghost var unread := content[..position];
      position := position - amount;
      var block := content[position..position + amount];
      assert unread + open == content[..position] + (block + open);
      var reports;
      reports, remainder, oversized, open := ReadChunk(block, remainder, oversized, content[..position], open);
      out := out + reports;
      peak := if |remainder| > peak then |remainder| else peak;
    }
    ReadingOneLine(open);
    assert content[..0] + open == open;
    if oversized {
      out := out + [None];
    } else if remainder != [] {
      out := out + [Some(remainder)];
    }
  }
}
