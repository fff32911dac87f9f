/** Querying the journal newest-first, and what a query tells about the history. */
module JournalQuery {
  import opened Common
  import opened ReverseLines
  import opened Journal

  /** Everything the reader reports for generations 0 to n-1, newest first. */
  function Stream(files: Files, n: nat): seq<Option<Line>> {
    if n == 0 then []
    else Stream(files, n - 1) + (if n - 1 in files then Reading(files[n - 1]) else [])
  }

  /** The generations below n that exist, in scanning order. */
  function Present(files: Files, n: nat): seq<nat> {
    if n == 0 then [] else Present(files, n - 1) + (if n - 1 in files then [n - 1] else [])
  }

  function Match<E>(report: Option<Line>, parse: Line -> Option<E>, wanted: E -> bool): seq<E> {
    if report.Some? && parse(report.value).Some? && wanted(parse(report.value).value)
    then [parse(report.value).value]
    else []
  }

  /** The wanted events among some reports, in report order. */
  function Matches<E>(reports: seq<Option<Line>>, parse: Line -> Option<E>, wanted: E -> bool): seq<E> {
    if reports == [] then []
    else Match(reports[0], parse, wanted) + Matches(reports[1..], parse, wanted)
  }

  predicate Bad<E>(report: Option<Line>, parse: Line -> Option<E>) {
    report.None? || parse(report.value).None?
  }

  function CountBad<E>(reports: seq<Option<Line>>, parse: Line -> Option<E>): nat {
    if reports == [] then 0
    else (if Bad(reports[0], parse) then 1 else 0) + CountBad(reports[1..], parse)
  }

  lemma {:induction false} MatchesConcat<E>(a: seq<Option<Line>>, b: seq<Option<Line>>, parse: Line -> Option<E>, wanted: E -> bool)
    ensures Matches(a + b, parse, wanted) == Matches(a, parse, wanted) + Matches(b, parse, wanted)
  {
    if a == [] {
      assert a + b == b;
    } else {
      MatchesConcat(a[1..], b, parse, wanted);
      assert (a + b)[1..] == a[1..] + b;
      Assoc(Match(a[0], parse, wanted), Matches(a[1..], parse, wanted), Matches(b, parse, wanted));
    }
  }

  lemma {:induction false} CountBadConcat<E>(a: seq<Option<Line>>, b: seq<Option<Line>>, parse: Line -> Option<E>)
    ensures CountBad(a + b, parse) == CountBad(a, parse) + CountBad(b, parse)
  {
    if a == [] {
      assert a + b == b;
    } else {
      CountBadConcat(a[1..], b, parse);
      assert (a + b)[1..] == a[1..] + b;
    }
  }

  /** Every report is either counted as corrupt or parsed. */
  lemma {:induction false} BadAndParsed<E>(reports: seq<Option<Line>>, parse: Line -> Option<E>)
    ensures CountBad(reports, parse) + |Matches(reports, parse, _ => true)| == |reports|
    ensures CountBad(reports, parse) == |set i | 0 <= i < |reports| && (reports[i].None? || parse(reports[i].value).None?)|
    decreases |reports|
  {
    if reports != [] {
      var n := |reports| - 1;
      var front, last := reports[..n], reports[n];
      BadAndParsed(front, parse);
      assert reports == front + [last];
      CountBadConcat(front, [last], parse);
      MatchesConcat(front, [last], parse, _ => true);
      MatchesOne(last, parse, _ => true);
      var before := set i | 0 <= i < n && (front[i].None? || parse(front[i].value).None?);
      var all := set i | 0 <= i < |reports| && (reports[i].None? || parse(reports[i].value).None?);
      assert all == if last.None? || parse(last.value).None? then before + {n} else before;
    }
  }

  lemma MatchesOne<E>(report: Option<Line>, parse: Line -> Option<E>, wanted: E -> bool)
    ensures Matches([report], parse, wanted) == Match(report, parse, wanted)
    ensures CountBad([report], parse) == if Bad(report, parse) then 1 else 0
  {
    assert [report][1..] == [];
  }

  datatype QueryResult<E> = QueryResult(events: seq<E>, truncated: bool, corrupt: nat, filesScanned: nat)

  /** The verdict `query` owes for a stream of reports. */
  ghost predicate Answers<E>(r: QueryResult<E>, files: Files, keep: nat, limit: nat, parse: Line -> Option<E>, wanted: E -> bool) {
    var found := Matches(Stream(files, keep), parse, wanted);
    && r.events == Take(found, limit)
    && (r.truncated <==> |found| > limit)
    && (!r.truncated ==> r.corrupt == CountBad(Stream(files, keep), parse))
    && (!r.truncated ==> r.filesScanned == |Present(files, keep)|)
  }

  /** A prefix of the stream with more than `limit` matches settles the answer. */
  lemma EnoughIsEnough<E>(seen: seq<Option<Line>>, rest: seq<Option<Line>>, limit: nat, parse: Line -> Option<E>, wanted: E -> bool)
    requires |Matches(seen, parse, wanted)| > limit
    ensures |Matches(seen + rest, parse, wanted)| > limit
    ensures Take(Matches(seen + rest, parse, wanted), limit) == Matches(seen, parse, wanted)[..limit]
  {
    MatchesConcat(seen, rest, parse, wanted);
  }

  lemma StreamPrefix(files: Files, n: nat, keep: nat) returns (rest: seq<Option<Line>>)
    requires n <= keep
    ensures Stream(files, keep) == Stream(files, n) + rest
    decreases keep - n
  {
    if n == keep {
      rest := [];
    } else {
      var more := StreamPrefix(files, n + 1, keep);
      rest := (if n in files then Reading(files[n]) else []) + more;
      Assoc(Stream(files, n), if n in files then Reading(files[n]) else [], more);
    }
  }

  /** The same, for a scan that stops inside generation g. */
  lemma StopsEarly<E>(files: Files, g: nat, used: nat, keep: nat, limit: nat, parse: Line -> Option<E>, wanted: E -> bool)
    requires g < keep && g in files && used <= |Reading(files[g])|
    requires |Matches(Stream(files, g) + Reading(files[g])[..used], parse, wanted)| > limit
    ensures var found := Matches(Stream(files, keep), parse, wanted);
            && |found| > limit
            && Take(found, limit) == Matches(Stream(files, g) + Reading(files[g])[..used], parse, wanted)[..limit]
  {
    hide Split, Newest, Matches, Reading;
    var reports := Reading(files[g]);
    var rest := StreamPrefix(files, g + 1, keep);
    assert Stream(files, g + 1) == Stream(files, g) + reports;
    hide Stream;
    var seen := Stream(files, g) + reports[..used];
    assert reports[..used] + reports[used..] == reports;
    Assoc(Stream(files, g), reports[..used], reports[used..]);
    Assoc(seen, reports[used..], rest);
    EnoughIsEnough(seen, reports[used..] + rest, limit, parse, wanted);
  }

  /** The matching loop over one file's reports; stops after limit + 1 events. */
  method ScanFile<E>(reports: seq<Option<Line>>, found: seq<E>, limit: nat, parse: Line -> Option<E>, wanted: E -> bool)
    returns (events: seq<E>, corrupt: nat, full: bool, ghost used: nat)
    requires |found| <= limit
    ensures used <= |reports|
    ensures events == found + Matches(reports[..used], parse, wanted)
    ensures full <==> |events| > limit
    ensures !full ==> used == |reports| && corrupt == CountBad(reports, parse)
  {
    events, corrupt, full := found, 0, false;
    var i := 0;
    while i < |reports|
      invariant 0 <= i <= |reports| && !full && |events| <= limit
      invariant events == found + Matches(reports[..i], parse, wanted)
      invariant corrupt == CountBad(reports[..i], parse)
    {
      assert reports[..i + 1] == reports[..i] + [reports[i]];
      MatchesConcat(reports[..i], [reports[i]], parse, wanted);
      CountBadConcat(reports[..i], [reports[i]], parse);
      MatchesOne(reports[i], parse, wanted);
      if reports[i].None? {
        corrupt := corrupt + 1;
      } else {
        var event := parse(reports[i].value);
        if event.None? {
          corrupt := corrupt + 1;
        } else if wanted(event.value) {
          events := events + [event.value];
          if |events| > limit {
            return events, corrupt, true, i + 1;
          }
        }
      }
      i := i + 1;
    }
    assert reports[..i] == reports;
    used := i;
  }

  /** `query` over the generations, current file first. */
  method Query<E>(files: Files, keep: nat, limit: nat, chunkSize: nat, parse: Line -> Option<E>, wanted: E -> bool)
    returns (r: QueryResult<E>)
    requires chunkSize >= 1
    ensures Answers(r, files, keep, limit, parse, wanted)
    // a scan that was not cut short accounts for every report: corrupt or parsed
    ensures !r.truncated ==> r.corrupt + |Matches(Stream(files, keep), parse, _ => true)| == |Stream(files, keep)|
  {
    var events: seq<E> := [];
    var corrupt, filesScanned, g := 0, 0, 0;
    while g < keep
      invariant 0 <= g <= keep
      invariant events == Matches(Stream(files, g), parse, wanted) && |events| <= limit
      invariant corrupt == CountBad(Stream(files, g), parse)
      invariant filesScanned == |Present(files, g)|
    {
      if g in files {
        filesScanned := filesScanned + 1;
        var reports, _ := IterReverseLines(files[g], chunkSize);
        var more, bad, full;
        ghost var used;
        more, bad, full, used := ScanFile(reports, events, limit, parse, wanted);
        MatchesConcat(Stream(files, g), reports[..used], parse, wanted);
        if full {
          StopsEarly(files, g, used, keep, limit, parse, wanted);
          return QueryResult(more[..limit], true, corrupt + bad, filesScanned);
        }
        assert reports[..used] == reports;
        CountBadConcat(Stream(files, g), reports, parse);
        events, corrupt := more, corrupt + bad;
      } else {
        assert Stream(files, g) + [] == Stream(files, g);
      }
      g := g + 1;
    }
    BadAndParsed(Stream(files, keep), parse);
    return QueryResult(events, false, corrupt, filesScanned);
  }

  // ---------- what a query says about the history ----------

  /** A torn tail that happens to read as a wanted event. */
  ghost predicate VisibleTail<E>(content: seq<byte>, parse: Line -> Option<E>, wanted: E -> bool) {
    Matches(Report(Tail(content)), parse, wanted) != []
  }

  ghost function VisibleTails<E>(files: Files, n: nat, parse: Line -> Option<E>, wanted: E -> bool): set<nat> {
    set g: nat | g < n && g in files && VisibleTail(files[g], parse, wanted)
  }

  lemma ReadingParts(content: seq<byte>)
    ensures Reading(content) == Report(Tail(content)) + Newest(Complete(content))
  {
    assert Split(content) == Complete(content) + [Tail(content)];
    NewestConcat(Complete(content), [Tail(content)]);
    assert Newest([Tail(content)][1..]) == [];
  }

  /** One more, older, generation: its tail and its lines come after everything newer. */
  lemma OlderGeneration<E>(newer: seq<Option<Line>>, content: seq<byte>, parse: Line -> Option<E>, wanted: E -> bool)
    ensures Matches(newer + Reading(content), parse, wanted)
            == Matches(newer, parse, wanted) + Matches(Report(Tail(content)), parse, wanted)
               + Matches(Newest(Complete(content)), parse, wanted)
  {
    ReadingParts(content);
    MatchesConcat(newer, Reading(content), parse, wanted);
    MatchesConcat(Report(Tail(content)), Newest(Complete(content)), parse, wanted);
    Assoc(Matches(newer, parse, wanted), Matches(Report(Tail(content)), parse, wanted), Matches(Newest(Complete(content)), parse, wanted));
  }

  lemma OlderLines<E>(content: seq<byte>, newer: seq<Line>, parse: Line -> Option<E>, wanted: E -> bool)
    ensures Matches(Newest(Complete(content) + newer), parse, wanted)
            == Matches(Newest(newer), parse, wanted) + Matches(Newest(Complete(content)), parse, wanted)
  {
    NewestConcat(Complete(content), newer);
    MatchesConcat(Newest(newer), Newest(Complete(content)), parse, wanted);
  }

  lemma OneMoreTail<E>(files: Files, n: nat, parse: Line -> Option<E>, wanted: E -> bool)
    ensures VisibleTails(files, n + 1, parse, wanted)
            == VisibleTails(files, n, parse, wanted)
               + (if n in files && VisibleTail(files[n], parse, wanted) then {n} else {})
    ensures n !in VisibleTails(files, n, parse, wanted)
  {
  }

  /** What is known about the stream s and the lines l of the first generations. */
  ghost predicate Agree<T(!new)>(s: seq<T>, l: seq<T>, tails: set<nat>) {
    |s| == |l| + |tails| && (tails == {} ==> s == l)
  }

  lemma AgreeOnMore<T(!new)>(s: seq<T>, l: seq<T>, tails: set<nat>, tail: seq<T>, lines: seq<T>, g: nat)
    requires Agree(s, l, tails) && g !in tails && |tail| <= 1
    ensures Agree(s + tail + lines, l + lines, tails + if tail == [] then {} else {g})
  {
    if tail == [] {
      assert s + tail == s && tails + {} == tails;
    } else {
      assert |tails + {g}| == |tails| + 1;
    }
  }

  ghost predicate StreamAgrees<E(!new)>(files: Files, n: nat, parse: Line -> Option<E>, wanted: E -> bool) {
    Agree(Matches(Stream(files, n), parse, wanted), Matches(Newest(Lines(files, n)), parse, wanted),
          VisibleTails(files, n, parse, wanted))
  }

  lemma StreamAgreesPresent<E(!new)>(files: Files, g: nat, parse: Line -> Option<E>, wanted: E -> bool)
    requires StreamAgrees(files, g, parse, wanted) && g in files
    ensures StreamAgrees(files, g + 1, parse, wanted)
  {
    hide Split, Newest, Matches, Reading, Report;
    var s, l, content := Stream(files, g), Lines(files, g), files[g];
    var tail, full := Matches(Report(Tail(content)), parse, wanted), Matches(Newest(Complete(content)), parse, wanted);
    OneMoreTail(files, g, parse, wanted);
    TailMatchesOnce(content, parse, wanted);
    AgreeOnMore(Matches(s, parse, wanted), Matches(Newest(l), parse, wanted),
                VisibleTails(files, g, parse, wanted), tail, full, g);
    assert Stream(files, g + 1) == s + Reading(content);
    assert Lines(files, g + 1) == Complete(content) + l;
    OlderGeneration(s, content, parse, wanted);
    OlderLines(content, l, parse, wanted);
  }

  lemma StreamAgreesAbsent<E(!new)>(files: Files, g: nat, parse: Line -> Option<E>, wanted: E -> bool)
    requires StreamAgrees(files, g, parse, wanted) && g !in files
    ensures StreamAgrees(files, g + 1, parse, wanted)
  {
    hide Split, Newest, Matches, Reading, Report;
    OneMoreTail(files, g, parse, wanted);
    assert Stream(files, g) + [] == Stream(files, g);
    assert [] + Lines(files, g) == Lines(files, g);
  }

  lemma StreamAgreesEmpty<E(!new)>(files: Files, parse: Line -> Option<E>, wanted: E -> bool)
    ensures StreamAgrees(files, 0, parse, wanted)
  {
    hide Split, Reading, VisibleTail;
    assert VisibleTails(files, 0, parse, wanted) == {};
  }

  lemma {:induction false} StreamAgainstLines<E(!new)>(files: Files, n: nat, parse: Line -> Option<E>, wanted: E -> bool)
    ensures StreamAgrees(files, n, parse, wanted)
  {
    hide *;
    if n == 0 {
      StreamAgreesEmpty(files, parse, wanted);
    } else {
      StreamAgainstLines(files, n - 1, parse, wanted);
      if n - 1 in files {
        StreamAgreesPresent(files, n - 1, parse, wanted);
      } else {
        StreamAgreesAbsent(files, n - 1, parse, wanted);
      }
    }
  }

  lemma TailMatchesOnce<E>(content: seq<byte>, parse: Line -> Option<E>, wanted: E -> bool)
    ensures |Matches(Report(Tail(content)), parse, wanted)| == if VisibleTail(content, parse, wanted) then 1 else 0
  {
    if Report(Tail(content)) != [] {
      MatchesOne(Report(Tail(content))[0], parse, wanted);
    }
  }

  /** The wanted events of a history, newest first. */
  ghost function NewestFirst<E>(history: seq<Line>, parse: Line -> Option<E>, wanted: E -> bool): seq<E> {
    if history == [] then []
    else NewestFirst(history[1..], parse, wanted) + Match(Some(history[0]), parse, wanted)
  }

  lemma {:induction false} NewestOfHistory<E>(history: seq<Line>, parse: Line -> Option<E>, wanted: E -> bool)
    requires forall i | 0 <= i < |history| :: history[i] != [] && |history[i]| <= MAX_EVENT_BYTES
    ensures Matches(Newest(history), parse, wanted) == NewestFirst(history, parse, wanted)
  {
    if history != [] {
      NewestOfHistory(history[1..], parse, wanted);
      MatchesConcat(Newest(history[1..]), [Some(history[0])], parse, wanted);
      MatchesOne(Some(history[0]), parse, wanted);
    }
  }

  /** A query sees exactly the retained part of the written history, newest first,
      if and only if no generation ends in a torn tail that reads as a wanted
      event: an append cut just before its newline is visible without ever having
      been acknowledged. */
  lemma QuerySeesHistory<E(!new)>(journal: OperationJournal, parse: Line -> Option<E>, wanted: E -> bool)
    requires journal.Valid()
    ensures Matches(Stream(journal.files, journal.keepFiles), parse, wanted)
              == NewestFirst(journal.written[journal.dropped..], parse, wanted)
            <==> VisibleTails(journal.files, journal.keepFiles, parse, wanted) == {}
  {
    StreamAgainstLines(journal.files, journal.keepFiles, parse, wanted);
    NewestOfHistory(journal.written[journal.dropped..], parse, wanted);
  }

  lemma CutLineReads(line: Line)
    requires Encodable(line) && |line| < MAX_EVENT_BYTES
    ensures var files: Files := map[0 := line];
            && Lines(files, 1) == []
            && Matches(Stream(files, 1), (l: Line) => Some(l), (l: Line) => true) == [line]
            && Terminated(line) == []
  {
    var parse: Line -> Option<Line> := l => Some(l);
    var wanted: Line -> bool := l => true;
    SplitNoNewline(line);
    ReadingOneLine(line);
    MatchesOne(Some(line), parse, wanted);
    assert Stream(map[0 := line], 1) == [] + Reading(line);
    assert Report(line) == [Some(line)];
    TerminatedIs(line, 0);
  }

  /** The smallest such tail, as an append leaves it: cut after the creation of the file
      and every byte before the newline, the event was neither acknowledged nor written,
      and a query shows it. */
  method UnacknowledgedEventIsVisible(line: Line) returns (journal: OperationJournal, outcome: Outcome)
    requires Encodable(line) && |line| < MAX_EVENT_BYTES
    ensures fresh(journal) && journal.Valid() && journal.written == [] && outcome == Crashed
    ensures Matches(Stream(journal.files, journal.keepFiles), (l: Line) => Some(l), (l: Line) => true) == [line]
  {
    journal := new OperationJournal(1, MAX_EVENT_BYTES);
    outcome := journal.AppendEvent(line, 1 + |line|, n => n);
    assert (line + [NEWLINE])[..|line|] == line;
    assert journal.files == map[0 := line];
    CutLineReads(line);
    assert Lines(journal.files, 1) == [];
  }

  // ---------- whole runs ----------

  ghost predicate Subsequence<T>(a: seq<T>, b: seq<T>)
    decreases |b|
  {
    || a == []
    || (b != [] && a[|a| - 1] == b[|b| - 1] && Subsequence(a[..|a| - 1], b[..|b| - 1]))
    || (b != [] && Subsequence(a, b[..|b| - 1]))
  }

  lemma SubsequenceGrows<T>(a: seq<T>, b: seq<T>, x: T)
    requires Subsequence(a, b)
    ensures Subsequence(a, b + [x]) && Subsequence(a + [x], b + [x])
  {
    assert (b + [x])[..|b|] == b && (a + [x])[..|a|] == a;
  }

  /** Any run of appends, each cut wherever its crash point says: every
      acknowledged event is in the written history in order, nothing else than
      the attempted lines is, the terminated lines on disk are a suffix of that
      history, and the disk budget holds. */
  method RunAppends(journal: OperationJournal, lines: seq<Line>, crashPoints: seq<nat>, accept: nat -> nat)
    returns (acknowledged: seq<Line>)
    requires journal.Valid() && |crashPoints| == |lines|
    requires forall i | 0 <= i < |lines| :: Encodable(lines[i])
    modifies journal
    ensures journal.Valid()
    ensures old(journal.written) <= journal.written
    ensures Subsequence(acknowledged, journal.written[|old(journal.written)|..])
    ensures Subsequence(journal.written[|old(journal.written)|..], lines)
    ensures old(journal.dropped) <= journal.dropped
    ensures Lines(journal.files, journal.keepFiles) == journal.written[journal.dropped..]
    ensures TotalBytes(journal.files, journal.keepFiles) <= journal.keepFiles * journal.fileLimit
  {
    acknowledged := [];
    ghost var start := |journal.written|;
    for i := 0 to |lines|
      invariant journal.Valid()
      invariant old(journal.written) <= journal.written && old(journal.dropped) <= journal.dropped
      invariant Subsequence(acknowledged, journal.written[start..])
      invariant Subsequence(journal.written[start..], lines[..i])
    {
      ghost var before := journal.written;
      hide Lines, TotalBytes, Complete, Terminated, Shifted, Subsequence, Encodable;
      var outcome := journal.AppendEvent(lines[i], crashPoints[i], accept);
      assert lines[..i + 1] == lines[..i] + [lines[i]];
      SubsequenceGrows(before[start..], lines[..i], lines[i]);
      if journal.written != before {
        assert journal.written[start..] == before[start..] + [lines[i]];
        SubsequenceGrows(acknowledged, before[start..], lines[i]);
      }
      if outcome == Acknowledged {
        acknowledged := acknowledged + [lines[i]];
      }
    }
    assert lines[..|lines|] == lines;
    TotalIsBounded(journal.files, journal.keepFiles, journal.fileLimit);
  }
}
