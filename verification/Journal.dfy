/** The append-only operation journal: rotation of numbered generations, repair of
    a torn tail, and an append that may be cut at any filesystem effect or byte. */
module Journal {
  import opened Common
  import opened ReverseLines

  /** Generation 0 is the current file; larger numbers are older archives. */
  type Files = map<nat, seq<byte>>

  /** The newline-terminated lines of a file, oldest first. */
  function Complete(s: seq<byte>): seq<Line> {
    var pieces := Split(s);
    pieces[..|pieces| - 1]
  }

  /** The bytes after the last newline. */
  function Tail(s: seq<byte>): Line {
    var pieces := Split(s);
    pieces[|pieces| - 1]
  }

  /** The terminated lines of generations n-1 down to 0, oldest first. */
  function Lines(files: Files, n: nat): seq<Line> {
    if n == 0 then []
    else (if n - 1 in files then Complete(files[n - 1]) else []) + Lines(files, n - 1)
  }

  function TotalBytes(files: Files, n: nat): nat {
    if n == 0 then 0
    else (if n - 1 in files then |files[n - 1]| else 0) + TotalBytes(files, n - 1)
  }

  /** What a completed rotation leaves: every generation one step older, and
      nothing beyond the last allowed generation. */
  function Shifted(files: Files, keep: nat): Files {
    map g | g in (set h: nat | h in files && h + 1 < keep :: h + 1) :: Previous(files, g)
  }

  function Previous(files: Files, g: nat): seq<byte>
    requires g >= 1 && g - 1 in files
  {
    files[g - 1]
  }

  /** The state just before generation g is considered by the rename loop. */
  ghost predicate PartlyShifted(before: Files, files: Files, keep: nat, g: nat) {
    && (forall x: nat {:trigger x in files} ::
          x in files <==> (x <= g && x in before) || (g + 2 <= x < keep && x - 1 in before))
    && (forall x: nat {:trigger files[x]} ::
          x in files ==> files[x] == if x <= g then before[x] else before[x - 1])
  }

  lemma PartlyShiftedEnds(before: Files, files: Files, keep: nat)
    requires keep >= 2 && 0 in before && PartlyShifted(before, files, keep, 0)
    ensures 0 in files && 1 !in files && files[0] == before[0]
    ensures (files - {0})[1 := files[0]] == Shifted(before, keep)
  {
    var renamed, shifted := (files - {0})[1 := files[0]], Shifted(before, keep);
    assert forall g: nat :: g in shifted <==> 1 <= g < keep && g - 1 in before;
    assert renamed.Keys == shifted.Keys;
  }

  lemma LinesFrame(a: Files, b: Files, n: nat)
    requires forall g: nat | g < n :: (g in a <==> g in b) && (g in a ==> a[g] == b[g])
    ensures Lines(a, n) == Lines(b, n)
  {
  }

  lemma {:induction false} LinesRename(files: Files, g: nat, n: nat)
    requires g in files && g + 1 !in files && g + 1 < n
    ensures Lines((files - {g})[g + 1 := files[g]], n) == Lines(files, n)
  {
    var renamed := (files - {g})[g + 1 := files[g]];
    if n == g + 2 {
      LinesFrame(files, renamed, g);
      assert Lines(renamed, g + 1) == [] + Lines(renamed, g);
    } else {
      LinesRename(files, g, n - 1);
    }
  }

  lemma LinesUnlinkOldest(files: Files, n: nat)
    requires n >= 1 && n - 1 in files
    ensures Lines(files, n) == Complete(files[n - 1]) + Lines(files - {n - 1}, n)
  {
    LinesFrame(files, files - {n - 1}, n - 1);
    assert Lines(files - {n - 1}, n) == [] + Lines(files - {n - 1}, n - 1);
  }

  lemma {:induction false} LinesUpdateCurrent(files: Files, content: seq<byte>, added: seq<Line>, n: nat)
    requires n >= 1
    requires Complete(content) == (if 0 in files then Complete(files[0]) else []) + added
    ensures Lines(files[0 := content], n) == Lines(files, n) + added
  {
    var updated := files[0 := content];
    if n == 1 {
      assert Lines(updated, 1) == Complete(content) + [];
    } else {
      LinesUpdateCurrent(files, content, added, n - 1);
      var oldest := if n - 1 in files then Complete(files[n - 1]) else [];
      assert Lines(updated, n) == oldest + (Lines(files, n - 1) + added);
      assert oldest + (Lines(files, n - 1) + added) == (oldest + Lines(files, n - 1)) + added;
    }
  }

  lemma {:induction false} TotalIsBounded(files: Files, n: nat, limit: nat)
    requires forall g | g in files :: |files[g]| <= limit
    ensures TotalBytes(files, n) <= n * limit
  {
    if n > 0 {
      TotalIsBounded(files, n - 1, limit);
      assert n * limit == (n - 1) * limit + limit;
    }
  }

  /** Appending newline-free bytes only lengthens the tail. */
  lemma AppendToTail(s: seq<byte>, more: seq<byte>)
    requires NEWLINE !in more
    ensures Complete(s + more) == Complete(s) && Tail(s + more) == Tail(s) + more
  {
    SplitNoNewline(more);
    SplitConcat(s, more);
    assert Glue(Split(s), [more]) == Complete(s) + [Tail(s) + more];
  }

  lemma AppendNewline(s: seq<byte>)
    ensures Complete(s + [NEWLINE]) == Complete(s) + [Tail(s)] && Tail(s + [NEWLINE]) == []
  {
    assert Split([NEWLINE]) == [[], []];
    SplitConcat(s, [NEWLINE]);
    assert Tail(s) + [] == Tail(s);
    assert Glue(Split(s), [[], []]) == (Complete(s) + [Tail(s)]) + [[]];
  }

  /** The bytes a repair keeps: everything up to and including the last newline. */
  function Terminated(s: seq<byte>): (r: seq<byte>)
    ensures r == [] || r[|r| - 1] == NEWLINE
    ensures r <= s && NEWLINE !in s[|r|..]
    decreases |s|
  {
    if s == [] || s[|s| - 1] == NEWLINE then s else Terminated(s[..|s| - 1])
  }

  lemma TerminatedKeepsLines(s: seq<byte>)
    ensures Complete(Terminated(s)) == Complete(s) && Tail(Terminated(s)) == []
  {
    var r := Terminated(s);
    assert s == r + s[|r|..];
    AppendToTail(r, s[|r|..]);
    if r != [] {
      assert r == r[..|r| - 1] + [NEWLINE];
      AppendNewline(r[..|r| - 1]);
    }
  }

  lemma {:induction false} TerminatedIs(s: seq<byte>, boundary: nat)
    requires boundary <= |s| && NEWLINE !in s[boundary..]
    requires boundary == 0 || s[boundary - 1] == NEWLINE
    ensures Terminated(s) == s[..boundary]
    decreases |s|
  {
    if boundary < |s| {
      var shorter := s[..|s| - 1];
      assert s[boundary..][|s| - 1 - boundary] == s[|s| - 1];
      assert s[boundary..] == shorter[boundary..] + [s[|s| - 1]];
      TerminatedIs(shorter, boundary);
      assert shorter[..boundary] == s[..boundary];
    } else {
      assert s[..boundary] == s;
    }
  }

  /** The backward scan of the repair, in blocks of 8192 bytes. */
  method LastBoundary(content: seq<byte>) returns (boundary: nat)
    ensures boundary <= |content| && content[..boundary] == Terminated(content)
  {
    var cursor := |content|;
    boundary := 0;
    while cursor > 0
      invariant 0 <= cursor <= |content|
      invariant boundary == 0
      invariant NEWLINE !in content[cursor..]
    {
      var width := Min(8192, cursor);
      cursor := cursor - width;
      var chunk := content[cursor..cursor + width];
      assert content[cursor..] == chunk + content[cursor + width..];
      var newline := RFind(chunk);
      if newline.Some? {
        boundary := cursor + newline.value + 1;
        assert content[boundary..] == chunk[newline.value + 1..] + content[cursor + width..];
        break;
      }
    }
    TerminatedIs(content, boundary);
  }

  datatype Outcome = Acknowledged | Crashed | ShortWrite | TooLarge

  /** Events are encoded as one non-empty line with every newline escaped. */
  predicate Encodable(line: Line) {
    line != [] && NEWLINE !in line
  }

  class OperationJournal {
    const keepFiles: nat
    const fileLimit: nat
    var files: Files
    /** Every event whose last byte reached a file, oldest first. */
    ghost var written: seq<Line>
    /** How many of those rotation has discarded. */
    ghost var dropped: nat

    ghost predicate Valid()
      reads this
    {
      && 1 <= keepFiles
      && MAX_EVENT_BYTES <= fileLimit
      && (forall g | g in files :: g < keepFiles && |files[g]| <= fileLimit)
      && (forall i | 0 <= i < |written| :: Encodable(written[i]) && |written[i]| < MAX_EVENT_BYTES)
      && dropped <= |written|
      && Lines(files, keepFiles) == written[dropped..]
    }

    constructor (keepFiles: nat, fileLimit: nat)
      requires 1 <= keepFiles && MAX_EVENT_BYTES <= fileLimit
      ensures Valid() && files == map[] && written == []
      ensures this.keepFiles == keepFiles && this.fileLimit == fileLimit
    {
      this.keepFiles, this.fileLimit := keepFiles, fileLimit;
      files, written, dropped := map[], [], 0;
      new;
      EmptyHasNoLines(keepFiles);
    }

    static lemma EmptyHasNoLines(n: nat)
      ensures Lines(map[], n) == []
    {
    }

    predicate NeedsRotation(line: Line)
      reads this
    {
      0 in files && |files[0]| + |line| + 1 > fileLimit
    }

    /** What the oldest generation would take with it. */
    ghost function Oldest(): seq<Line>
      reads this
    {
      if keepFiles >= 1 && keepFiles - 1 in files then Complete(files[keepFiles - 1]) else []
    }

    method Unlink(g: nat)
      requires Valid() && g in files && g == keepFiles - 1
      modifies this
      ensures Valid() && files == old(files) - {g} && written == old(written)
      ensures dropped == old(dropped) + |Complete(old(files)[g])|
    {
      LinesUnlinkOldest(files, keepFiles);
      ghost var gone := Complete(files[g]);
      files := files - {g};
      dropped := dropped + |gone|;
      assert written[dropped..] == (gone + Lines(files, keepFiles))[|gone|..];
    }

    method Rename(g: nat)
      requires Valid() && g in files && g + 1 < keepFiles && g + 1 !in files
      modifies this
      ensures Valid() && files == (old(files) - {g})[g + 1 := old(files)[g]]
      ensures written == old(written) && dropped == old(dropped)
    {
      LinesRename(files, g, keepFiles);
      files := (files - {g})[g + 1 := files[g]];
    }

    /** `_rotate`, cut after `steps` filesystem effects. */
    method Rotate(steps: nat) returns (left: nat, alive: bool)
      requires Valid()
      modifies this
      ensures Valid() && written == old(written)
      ensures dropped == old(dropped) || dropped == old(dropped) + |old(Oldest())|
      ensures alive ==> left <= steps
      ensures alive ==> files == if 0 in old(files) then Shifted(old(files), keepFiles) else old(files)
      ensures alive && 0 in old(files) ==> dropped == old(dropped) + |old(Oldest())|
      ensures alive && 0 !in old(files) ==> dropped == old(dropped)
    {
      left, alive := steps, true;
      if 0 !in files {
        return;
      }
      if keepFiles == 1 {
        if left == 0 { return 0, false; }
        Unlink(0);
        left := left - 1;
        return;
      }
      var oldest := keepFiles - 1;
      if oldest in files {
        if left == 0 { return 0, false; }
        Unlink(oldest);
        left := left - 1;
      }
      ghost var before := old(files);
      var generation: nat := keepFiles - 2;
      while generation > 0
        invariant 0 <= generation <= keepFiles - 2
        invariant Valid() && written == old(written)
        invariant dropped == old(dropped) + |old(Oldest())|
        invariant left <= steps && alive
        invariant PartlyShifted(before, files, keepFiles, generation)
      {
        if generation in files {
          // the slot above was emptied one step earlier, so its unlink never runs
          assert generation + 1 !in files;
          if left == 0 { return 0, false; }
          Rename(generation);
          left := left - 1;
        }
        generation := generation - 1;
      }
      if left == 0 { return 0, false; }
      PartlyShiftedEnds(before, files, keepFiles);
      Rename(0);
      left := left - 1;
    }

    /** `_repair_torn_tail`: keep everything up to the last newline, in one truncation. */
    method RepairTornTail(steps: nat) returns (left: nat, alive: bool)
      requires Valid()
      modifies this
      ensures Valid() && written == old(written) && dropped == old(dropped)
      ensures alive ==> left <= steps
      ensures alive ==> files == if 0 in old(files) then old(files)[0 := Terminated(old(files)[0])] else old(files)
      ensures !alive ==> files == old(files)
      ensures old(0 !in files) ==> alive && left == steps
    {
      hide Split, Lines;
      left, alive := steps, true;
      if 0 !in files {
        return;
      }
      var content := files[0];
      assert files == files[0 := content];
      if content == [] || content[|content| - 1] == NEWLINE {
        return;
      }
      var boundary := LastBoundary(content);
      if left == 0 { return 0, false; }
      var kept := content[..boundary];
      TerminatedKeepsLines(content);
      assert Complete(kept) == Complete(files[0]) + [];
      LinesUpdateCurrent(files, kept, [], keepFiles);
      files := files[0 := kept];
      assert written[dropped..] + [] == written[dropped..];
      left := left - 1;
    }

    /** `done` bytes of the encoded line have been added to the file in `start`; the
        event counts as written exactly when its newline is one of them. */
    ghost predicate Progress(line: Line, done: nat, start: Files, before: seq<Line>)
      reads this
    {
      && done <= |line| + 1 && 0 in start
      && files == start[0 := start[0] + (line + [NEWLINE])[..done]]
      && written == (if done == |line| + 1 then before + [line] else before)
      && (done <= |line| ==> Tail(files[0]) == line[..done])
    }

    lemma ProgressStarts(line: Line)
      requires 0 in files && Tail(files[0]) == []
      ensures Progress(line, 0, files, written)
    {
      assert files[0] + (line + [NEWLINE])[..0] == files[0];
    }

    method WriteBytes(count: nat, line: Line, done: nat, ghost start: Files, ghost before: seq<Line>)
      requires Valid() && Encodable(line) && |line| < MAX_EVENT_BYTES
      requires Progress(line, done, start, before) && 1 <= count && done + count <= |line| + 1
      requires |start[0]| + |line| + 1 <= fileLimit
      modifies this
      ensures Valid() && dropped == old(dropped)
      ensures Progress(line, done + count, start, before)
    {
      hide Split, Lines;
      var encoded, content := line + [NEWLINE], files[0];
      var piece := encoded[done..done + count];
      assert encoded[..done] + piece == encoded[..done + count];
      assert content + piece == start[0] + encoded[..done + count];
      if done + count == |encoded| {
        var body := line[done..];
        assert piece == body + [NEWLINE];
        AppendToTail(content, body);
        AppendNewline(content + body);
        assert content + piece == content + body + [NEWLINE];
        assert line[..done] + body == line;
        LinesUpdateCurrent(files, content + piece, [line], keepFiles);
        written := written + [line];
        assert written[dropped..] == old(written)[dropped..] + [line];
      } else {
        assert piece == line[done..done + count];
        AppendToTail(content, piece);
        LinesUpdateCurrent(files, content + piece, [], keepFiles);
        assert line[..done] + piece == line[..done + count];
        assert written[dropped..] + [] == written[dropped..];
      }
      files := files[0 := content + piece];
    }

    /** The write loop: short writes are retried, a zero-byte write is an error. */
    method WriteLine(line: Line, steps: nat, accept: nat -> nat) returns (outcome: Outcome)
      requires Valid() && 0 in files && Tail(files[0]) == []
      requires Encodable(line) && |line| < MAX_EVENT_BYTES
      requires |files[0]| + |line| + 1 <= fileLimit
      modifies this
      ensures Valid() && dropped == old(dropped)
      ensures outcome != TooLarge
      ensures outcome == Acknowledged ==> files == old(files)[0 := old(files)[0] + line + [NEWLINE]]
      ensures outcome == Acknowledged ==> written == old(written) + [line]
      ensures written == old(written) || written == old(written) + [line]
      ensures outcome == ShortWrite ==> written == old(written)
      // a crash leaves exactly the bytes it let through
      ensures outcome == Crashed ==> steps <= |line| + 1 && files == old(files)[0 := old(files)[0] + (line + [NEWLINE])[..steps]]
      ensures steps <= |line| + 1 && (forall k: nat :: k > 0 ==> accept(k) > 0) ==> outcome == Crashed
    {
      var left: nat, done: nat, size := steps, 0, |line| + 1;
      ghost var start, before := files, written;
      ProgressStarts(line);
      while done < size
        invariant Valid() && dropped == old(dropped)
        invariant Progress(line, done, start, before)
        invariant left + done == steps
      {
        var count := Min(accept(size - done), size - done);
        var cut := Min(count, left);
        if count == 0 {
          return ShortWrite;
        }
        if cut > 0 {
          WriteBytes(cut, line, done, start, before);
        }
        if left < count {
          return Crashed;
        }
        done := done + cut;
        left := left - cut;
      }
      assert (line + [NEWLINE])[..done] == line + [NEWLINE];
      assert start[0] + (line + [NEWLINE]) == start[0] + line + [NEWLINE];
      // the event is readable now, but only the flush that follows acknowledges it
      return if left == 0 then Crashed else Acknowledged;
    }

    /** Open the current file for appending, creating it when it is absent. */
    method OpenCurrent(steps: nat) returns (left: nat, alive: bool)
      requires Valid()
      modifies this
      ensures Valid() && written == old(written) && dropped == old(dropped)
      ensures alive ==> left <= steps
      ensures alive ==> files == if 0 in old(files) then old(files) else old(files)[0 := []]
      ensures old(0 !in files) ==> (alive <==> steps > 0) && (alive ==> left == steps - 1) && (!alive ==> files == old(files))
    {
      left, alive := steps, true;
      if 0 !in files {
        if left == 0 { return 0, false; }
        assert Complete([]) == [] + [];
        LinesUpdateCurrent(files, [], [], keepFiles);
        files := files[0 := []];
        assert written[dropped..] + [] == written[dropped..];
        left := left - 1;
      }
    }

    /** `append_event`. A crash may stop it after any number of effects, where
        every written byte is an effect; `accept` says how many bytes one write
        call takes when that many remain. */
    method AppendEvent(line: Line, steps: nat, accept: nat -> nat) returns (outcome: Outcome)
      requires Valid() && Encodable(line)
      modifies this
      ensures Valid()
      ensures outcome == TooLarge <==> |line| + 1 > MAX_EVENT_BYTES
      ensures outcome == TooLarge ==> files == old(files) && written == old(written) && dropped == old(dropped)
      ensures outcome == Acknowledged ==>
                var base := if old(0 in files && |files[0]| + |line| + 1 > fileLimit) then Shifted(old(files), keepFiles) else old(files);
                var kept := if 0 in base then Terminated(base[0]) else [];
                files == base[0 := kept + line + [NEWLINE]]
      ensures outcome == Acknowledged ==> written == old(written) + [line]
      ensures written == old(written) || written == old(written) + [line]
      ensures outcome == ShortWrite ==> written == old(written)
      // only an event that does not fit beside what is there moves anything on
      ensures dropped == old(dropped)
              || (old(0 in files && |files[0]| + |line| + 1 > fileLimit) && dropped == old(dropped) + |old(Oldest())|)
      // into a new file, a crash leaves exactly the bytes it let through after the creation
      ensures old(0 !in files) && outcome == Crashed ==>
                files == if steps == 0 then old(files) else old(files)[0 := (line + [NEWLINE])[..Min(steps - 1, |line| + 1)]]
      ensures old(0 !in files) && outcome != TooLarge && steps <= |line| + 2 && (forall k: nat :: k > 0 ==> accept(k) > 0) ==>
                outcome == Crashed
    {
      if |line| + 1 > MAX_EVENT_BYTES {
        return TooLarge;
      }
      ghost var full := 0 in files && |files[0]| + |line| + 1 > fileLimit;
      assert NeedsRotation(line) == full;
      hide NeedsRotation;
      var left, alive := steps, true;
      if NeedsRotation(line) {
        left, alive := Rotate(left);
        if !alive { return Crashed; }
      }
      ghost var base := files;
      left, alive := RepairTornTail(left);
      if !alive { return Crashed; }
      left, alive := OpenCurrent(left);
      if !alive { return Crashed; }
      if 0 in base {
        TerminatedKeepsLines(base[0]);
      } else {
        assert Tail([]) == [];
      }
      outcome := WriteLine(line, left, accept);
      if outcome == Crashed && 0 !in base {
        assert [] + (line + [NEWLINE])[..left] == (line + [NEWLINE])[..left];
        assert files == base[0 := (line + [NEWLINE])[..left]];
      }
      assert outcome == Acknowledged ==> files[0] == (if 0 in base then Terminated(base[0]) else []) + line + [NEWLINE];
    }
  }
}
