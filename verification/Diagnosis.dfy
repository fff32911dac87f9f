/** The diagnosis envelope: it states its own exact length, and drops sections in a
    fixed order until it fits. */
module Diagnosis {
  import opened Common
  import opened Json
  import FiniteJson
  import Utf8

  const MAX_SERIALIZED_BYTES: nat := 65536

  /** The sections by name. */
  datatype Name = Agent | Job | Logs | Node | Operations | Queue | Request | Res | Telemetry | Transfer

  /** Lower-priority detail goes first. */
  const OMISSION_ORDER: seq<Name> := [Logs, Operations, Transfer, Telemetry, Node, Agent, Queue, Request, Res, Job]

  datatype Section = Section(complete: bool, data: Json, freshness: Json, reason: Option<string>)

  /** A section's metadata cannot contradict its payload: incomplete, it gives a reason. */
  type Sections = Name -> Section

  datatype Envelope = Envelope(
    generatedAt: string,
    jobId: string,
    facts: Json,
    inferences: Json,
    actions: Json,
    sections: Sections,
    complete: bool,
    serializedBytes: nat)

  function SectionJson(s: Section): Json {
    Obj([Member("complete", Bool(s.complete)),
         Member("data", s.data),
         Member("freshness", s.freshness),
         Member("omission_reason", if s.reason.None? then Null else Str(s.reason.value))])
  }

  function SectionsJson(s: Sections): Json {
    Obj([Member("agent", SectionJson(s(Agent))),
         Member("job", SectionJson(s(Job))),
         Member("logs", SectionJson(s(Logs))),
         Member("node", SectionJson(s(Node))),
         Member("operations", SectionJson(s(Operations))),
         Member("queue", SectionJson(s(Queue))),
         Member("request", SectionJson(s(Request))),
         Member("result", SectionJson(s(Res))),
         Member("telemetry", SectionJson(s(Telemetry))),
         Member("transfer", SectionJson(s(Transfer)))])
  }

  function Members(e: Envelope): (r: seq<Member>)
    ensures |r| == 10
  {
    [Member("actions", e.actions),
     Member("complete", Bool(e.complete)),
     Member("facts", e.facts),
     Member("generated_at", Str(e.generatedAt)),
     Member("inferences", e.inferences),
     Member("job_id", Str(e.jobId)),
     Member("schema_version", Str("dt_diagnosis_v1")),
     Member("sections", SectionsJson(e.sections)),
     Member("serialized_byte_budget", Int(MAX_SERIALIZED_BYTES)),
     Member("serialized_bytes", Int(e.serializedBytes))]
  }

  /** `len(_json_bytes(payload))`. */
  function Length(e: Envelope): nat {
    |Render(Obj(Members(e)))|
  }

  predicate AllComplete(s: Sections) {
    forall i | 0 <= i < |OMISSION_ORDER| :: s(OMISSION_ORDER[i]).complete
  }

  /** The size field adds its own width and nothing else. */
  lemma LengthOfSize(e: Envelope, n: nat)
    ensures Length(e.(serializedBytes := n)) + |Decimal(e.serializedBytes)| == Length(e) + |Decimal(n)|
  {
    ReplaceChangesLength(Members(e), 9, Int(n));
    assert Members(e)[9 := Member("serialized_bytes", Int(n))] == Members(e.(serializedBytes := n));
  }

  function Omitted(s: Section): Section {
    Section(false, Null, s.freshness,
            Some(if s.reason.None? then "serialized_byte_budget" else s.reason.value + "+serialized_byte_budget"))
  }

  /** `_mark_budget_omission` on one section, and the envelope is no longer complete. */
  function Mark(e: Envelope, name: Name): Envelope {
    e.(sections := (n: Name) => if n == name then Omitted(e.sections(n)) else e.sections(n), complete := false)
  }

  /** The first k sections of the omission order dropped. */
  function Dropped(e: Envelope, k: nat): Envelope
    requires k <= |OMISSION_ORDER|
  {
    if k == 0 then e else Mark(Dropped(e, k - 1), OMISSION_ORDER[k - 1])
  }

  predicate Fits(e: Envelope, k: nat)
    requires k <= |OMISSION_ORDER|
  {
    Length(Dropped(e, k)) <= MAX_SERIALIZED_BYTES
  }

  /** The shortest prefix of the omission order that makes the envelope fit. */
  predicate Shortest(e: Envelope, k: nat) {
    && k <= |OMISSION_ORDER| && Fits(e, k)
    && forall j | 0 <= j < k :: !Fits(e, j)
  }

  /** Dropping k sections drops the first k of the order and leaves the others alone. */
  lemma {:induction false} DroppedSection(e: Envelope, k: nat, i: nat)
    requires k <= |OMISSION_ORDER| && i < |OMISSION_ORDER|
    ensures var before, after := e.sections(OMISSION_ORDER[i]), Dropped(e, k).sections(OMISSION_ORDER[i]);
            if i >= k then after == before
            else
              && !after.complete && after.data == Null && after.freshness == before.freshness && after.reason.Some?
              && after.reason.value == if before.reason.None? then "serialized_byte_budget"
                                       else before.reason.value + "+serialized_byte_budget"
  {
    if k > 0 {
      DroppedSection(e, k - 1, i);
      OrderIsDistinct(if i < k - 1 then i else k - 1, if i < k - 1 then k - 1 else i);
    }
  }

  /** Dropping changes the sections and the overall completeness, which stays exact. */
  lemma {:induction false} DroppedKeeps(e: Envelope, k: nat)
    requires k <= |OMISSION_ORDER| && e.complete == AllComplete(e.sections)
    ensures var d := Dropped(e, k);
            d == e.(sections := d.sections, complete := d.complete) && d.complete == AllComplete(d.sections)
  {
    if k > 0 {
      DroppedKeeps(e, k - 1);
      var d := Dropped(e, k);
      assert !d.sections(OMISSION_ORDER[k - 1]).complete;
    }
  }

  lemma OrderIsDistinct(i: nat, j: nat)
    requires i <= j < |OMISSION_ORDER|
    ensures OMISSION_ORDER[i] == OMISSION_ORDER[j] ==> i == j
  {
  }

  class Payload {
    var e: Envelope

    constructor (e: Envelope)
      ensures this.e == e
    {
      this.e := e;
    }

    /** The omission loop of `build`. */
    method DropUntilItFits() returns (fits: bool)
      modifies this
      ensures fits <==> exists k :: Shortest(old(e), k)
      ensures fits ==> exists k :: Shortest(old(e), k) && e == Dropped(old(e), k)
    {
      hide Length, Mark;
      ghost var e0 := e;
      var k := 0;
      while k < |OMISSION_ORDER| && Length(e) > MAX_SERIALIZED_BYTES
        invariant k <= |OMISSION_ORDER| && e == Dropped(e0, k)
        invariant forall j | 0 <= j < k :: !Fits(e0, j)
      {
        e := Mark(e, OMISSION_ORDER[k]);
        k := k + 1;
      }
      fits := Length(e) <= MAX_SERIALIZED_BYTES;
      if fits {
        assert Shortest(e0, k);
      } else {
        forall j ensures !Shortest(e0, j) {
        }
      }
    }

    /** The width loop of `build`: at most eight passes, and it has always converged. */
    method StateOwnLength()
      requires e.serializedBytes == 0 && Length(e) <= MAX_SERIALIZED_BYTES
      modifies this
      ensures e == old(e).(serializedBytes := e.serializedBytes) && e.serializedBytes == Length(e)
      ensures Length(e) <= MAX_SERIALIZED_BYTES <==> Length(old(e)) <= MAX_SERIALIZED_BYTES - 4
    {
      ghost var e0 := e;
      LongerThanSize(e0);
      ghost var base: nat := Length(e0) - 1;
      SizedLength(e0, e);
      for i := 0 to 8
        invariant e == e0.(serializedBytes := e.serializedBytes)
        invariant Pass(i, base, e.serializedBytes)
      {
        hide Length, Decimal, Pass;
        SizedLength(e0, e);
        PassNext(i, base, e.serializedBytes);
        var size := Length(e);
        if e.serializedBytes == size {
          break;
        }
        e := e.(serializedBytes := size);
      }
      hide Length, Decimal;
      SizedLength(e0, e);
      FixedPoint(base, e.serializedBytes);
      var finalSize := Length(e);
      e := e.(serializedBytes := finalSize);
    }

    /** `build`, from the assembled payload. It is refused exactly when every section is
        dropped and it still does not fit, or when the shortest prefix leaves fewer than
        four bytes for the width of the size field. */
    method Build() returns (ok: bool)
      requires e.serializedBytes == 0 && e.complete == AllComplete(e.sections)
      modifies this
      ensures ok <==> exists k :: Shortest(old(e), k) && Length(Dropped(old(e), k)) <= MAX_SERIALIZED_BYTES - 4
      ensures ok ==> exists k :: Shortest(old(e), k) && e == Dropped(old(e), k).(serializedBytes := e.serializedBytes)
      ensures ok ==> e.serializedBytes == Length(e) <= MAX_SERIALIZED_BYTES
      ensures ok ==> e.complete == AllComplete(e.sections)
    {
      ghost var e0 := e;
      var fits := DropUntilItFits();
      if !fits {
        return false;
      }
      ghost var k :| Shortest(e0, k) && e == Dropped(e0, k);
      DroppedKeeps(e0, k);
      ShortestIsUnique(e0);
      hide Length, Dropped, AllComplete;
      StateOwnLength();
      ok := Length(e) <= MAX_SERIALIZED_BYTES;
      if ok {
        // the value is the one it already has
        e := e.(complete := AllComplete(e.sections));
      }
    }
  }

  lemma ShortestIsUnique(e: Envelope)
    ensures forall j, k | Shortest(e, j) && Shortest(e, k) :: j == k
  {
  }

  lemma LongerThanSize(e: Envelope)
    ensures Length(e) >= 2
  {
  }

  /** Two corrections of the width are enough. */
  lemma Widths(base: nat)
    requires base < MAX_SERIALIZED_BYTES
    ensures var n2 := base + |Decimal(base + 1)|; var n3 := base + |Decimal(n2)|; n3 == base + |Decimal(n3)|
  {
    DecimalLength(base + 1);
    DecimalLength(base + |Decimal(base + 1)|);
    DecimalLength(base + |Decimal(base + |Decimal(base + 1)|)|);
  }

  /** The size field after i passes. */
  predicate Pass(i: nat, base: nat, n: nat) {
    if i == 0 then n == 0
    else if i == 1 then n == base + 1
    else if i == 2 then n == base + |Decimal(base + 1)|
    else n == base + |Decimal(n)|
  }

  lemma PassNext(i: nat, base: nat, n: nat)
    requires base < MAX_SERIALIZED_BYTES && Pass(i, base, n)
    ensures Pass(i + 1, base, base + |Decimal(n)|)
  {
    hide Decimal;
    if i == 0 {
      DecimalOfZero();
    } else if i == 2 {
      Widths(base);
    }
  }

  lemma DecimalOfZero()
    ensures |Decimal(0)| == 1
  {
  }

  lemma SizedLength(e0: Envelope, e: Envelope)
    requires e0.serializedBytes == 0 && e == e0.(serializedBytes := e.serializedBytes)
    ensures Length(e) == Length(e0) - 1 + |Decimal(e.serializedBytes)|
  {
    LengthOfSize(e0, e.serializedBytes);
    DecimalLength(0);
    hide Length;
  }

  lemma FixedPoint(base: nat, n: nat)
    requires base < MAX_SERIALIZED_BYTES && n == base + |Decimal(n)|
    ensures n <= MAX_SERIALIZED_BYTES <==> base + 1 <= MAX_SERIALIZED_BYTES - 4
  {
    DecimalIsShort(n);
    DecimalLength(n);
  }

  lemma {:induction false} DecimalIsShort(n: nat)
    ensures |Decimal(n)| <= 1 + n / 2
  {
    if n >= 10 {
      DecimalIsShort(n / 10);
    }
  }

  // ---------- the four bytes ----------

  lemma EscapeBound(c: char)
    ensures 1 <= |Escape(c)| <= 12 && (c == 'x' ==> Escape(c) == [c])
  {
  }

  lemma {:induction false} EscapedBound(s: string)
    ensures |s| <= |Escaped(s)| <= 12 * |s|
  {
    if s != [] {
      EscapeBound(s[0]);
      hide Escape;
      EscapedBound(s[1..]);
    }
  }

  lemma LettersAreNotEscaped(s: string)
    requires forall i | 0 <= i < |s| :: s[i] == 'x'
    ensures |Escaped(s)| == |s|
  {
    UnescapedIsKept(s);
  }

  /** Lengths of the values other than containers. */
  lemma Lengths(s: string, b: bool)
    ensures |Render(Str(s))| == 2 + |Escaped(s)| <= 2 + 12 * |s|
    ensures |Render(Null)| == 4 && |Render(Bool(b))| <= 5
    ensures |Render(Int(0))| == 1 && |Render(Int(MAX_SERIALIZED_BYTES))| == 5
  {
    EscapedBound(s);
    DecimalLength(MAX_SERIALIZED_BYTES);
  }

  predicate Short(m: Member, each: nat) {
    |m.key| <= 22 && |Render(m.value)| <= each
  }

  lemma MemberBound(m: Member)
    requires |m.key| <= 22
    ensures |RenderMember(m)| <= 270 + |Render(m.value)|
  {
    EscapedBound(m.key);
  }

  lemma MembersBound(members: seq<Member>, each: nat)
    requires forall i | 0 <= i < |members| :: Short(members[i], each)
    ensures |Render(Obj(members))| <= 2 + |members| * (271 + each)
  {
    MembersTextBound(members, each, |members|, 271 + each);
  }

  lemma OneMore(n: nat, c: nat)
    requires n > 0
    ensures (n - 1) * c + c == n * c
  {
  }

  lemma MembersTextStep(members: seq<Member>)
    requires members != []
    ensures |RenderMembers(members)| <= |RenderMember(members[0])| + 1 + |RenderMembers(members[1..])|
  {
    hide RenderMember;
  }

  lemma {:induction false} MembersTextBound(members: seq<Member>, each: nat, n: nat, c: nat)
    requires forall i | 0 <= i < |members| :: Short(members[i], each)
    requires n == |members| && c == 271 + each
    ensures |RenderMembers(members)| <= n * c
  {
    if members != [] {
      assert |members[0].key| <= 22 && |Render(members[0].value)| <= each by {
        assert Short(members[0], each);
      }
      hide Render, RenderMember, RenderMembers, Escaped, Short;
      MemberBound(members[0]);
      MembersTextStep(members);
      MembersTextBound(members[1..], each, n - 1, c);
      OneMore(n, c);
    }
  }

  lemma FourMembers(a: Member, b: Member, c: Member, d: Member, each: nat)
    requires Short(a, each) && Short(b, each) && Short(c, each) && Short(d, each)
    ensures |Render(Obj([a, b, c, d]))| <= 2 + 4 * (271 + each)
  {
    hide Short;
    MembersBound([a, b, c, d], each);
  }

  lemma ShortReason(s: Section)
    requires s.reason == None || s.reason == Some("serialized_byte_budget")
    ensures Short(Member("omission_reason", if s.reason.None? then Null else Str(s.reason.value)), 300)
  {
    hide Render;
    Lengths("serialized_byte_budget", true);
  }

  /** Freshness as `section` states it. */
  function Freshness(age: Json, observedAt: string, updatedAt: Json, state: string): Json {
    Obj([Member("age_s", age), Member("observed_at", Str(observedAt)),
         Member("source_updated_at", updatedAt), Member("state", Str(state))])
  }

  function Observed(time: string, state: string): Json {
    Freshness(Null, time, Null, state)
  }

  predicate Brief(s: string) {
    0 < |s| <= 24
  }

  lemma ObservedIsShort(time: string, state: string)
    requires Brief(time) && Brief(state)
    ensures |Render(Observed(time, state))| <= 2286
  {
    hide Render;
    Lengths(time, true);
    Lengths(state, true);
    FourMembers(Member("age_s", Null), Member("observed_at", Str(time)),
                Member("source_updated_at", Null), Member("state", Str(state)), 300);
  }

  lemma SectionWithout(s: Section)
    requires |Render(s.data)| <= 300 && s.freshness == Null
    requires s.reason == None || s.reason == Some("serialized_byte_budget")
    ensures |Render(SectionJson(s))| <= 2286
  {
    hide Render;
    ShortReason(s);
    Lengths("", s.complete);
    assert Short(Member("complete", Bool(s.complete)), 300);
    assert Short(Member("data", s.data), 300);
    assert Short(Member("freshness", s.freshness), 300);
    hide Short;
    FourMembers(Member("complete", Bool(s.complete)), Member("data", s.data), Member("freshness", s.freshness),
                Member("omission_reason", if s.reason.None? then Null else Str(s.reason.value)), 300);
  }

  lemma SmallSection(s: Section, time: string, state: string)
    requires |Render(s.data)| <= 300 && Brief(time) && Brief(state) && s.freshness == Observed(time, state)
    requires s.reason == None || s.reason == Some("serialized_byte_budget")
    ensures |Render(SectionJson(s))| <= 4600
  {
    ObservedIsShort(time, state);
    hide Observed;
    var t := s.(freshness := Null);
    SectionWithout(t);
    FreshnessSwap(s);
  }

  lemma FreshnessSwap(s: Section)
    ensures |Render(SectionJson(s))| + 4 == |Render(SectionJson(s.(freshness := Null)))| + |Render(s.freshness)|
  {
    var t := s.(freshness := Null);
    Lengths("", true);
    hide Render;
    ReplaceChangesLength(SectionJson(t).members, 2, s.freshness);
    assert SectionJson(t).members[2 := Member("freshness", s.freshness)] == SectionJson(s).members;
  }

  ghost predicate SmallData(s: Sections, time: string, state: string) {
    forall n: Name :: |Render(s(n).data)| <= 300 && s(n).freshness == Observed(time, state)
                      && (s(n).reason == None || s(n).reason == Some("serialized_byte_budget"))
  }

  lemma SmallSections(s: Sections, time: string, state: string)
    requires Brief(time) && Brief(state) && SmallData(s, time, state)
    ensures |Render(SectionsJson(s))| <= 48_712
  {
    hide Observed;
    forall n: Name ensures |Render(SectionJson(s(n)))| <= 4600 {
      SmallSection(s(n), time, state);
    }
    hide SectionJson, SmallData;
    MembersBound(SectionsJson(s).members, 4600);
  }

  predicate Plain(e: Envelope) {
    Brief(e.generatedAt) && Brief(e.jobId) && e.facts == Obj([]) && e.inferences == Arr([]) && e.actions == Arr([])
    && e.serializedBytes == 0
  }

  lemma SmallEnvelope(e: Envelope)
    requires Plain(e) && |Render(SectionsJson(e.sections))| <= 48_712
    ensures Length(e) <= 60_000
  {
    hide Render, SectionsJson;
    Lengths("", e.complete);
    ReplaceChangesLength(Members(e), 7, Null);
    var members := Members(e)[7 := Member("sections", Null)];
    forall i | 0 <= i < |members| ensures Short(members[i], 300) {
      ShortMember(e, i);
    }
    hide Short, Members;
    MembersBound(members, 300);
  }

  lemma EmptyContainers()
    ensures |Render(Obj([]))| == 2 && |Render(Arr([]))| == 2
  {
  }

  lemma ShortMember(e: Envelope, i: nat)
    requires Plain(e) && i < 10
    ensures Short(Members(e)[7 := Member("sections", Null)][i], 300)
  {
    EmptyContainers();
    hide Render, SectionsJson;
    if i == 6 {
      Lengths("dt_diagnosis_v1", e.complete);
    } else if i == 3 {
      Lengths(e.generatedAt, e.complete);
    } else {
      Lengths(e.jobId, e.complete);
    }
  }

  /** Data within the bounds that `section` and `build` leave or check. */
  predicate Within(j: Json, depth: nat)
    decreases j
  {
    match j
    case Int(n) => -FiniteJson.MAX_INT <= n <= FiniteJson.MAX_INT
    case Str(s) => |Utf8.Encode(s)| <= FiniteJson.MAX_STRING_BYTES
    case Arr(items) =>
      depth < FiniteJson.MAX_DEPTH && |items| <= FiniteJson.MAX_CONTAINER_ITEMS
      && forall i | 0 <= i < |items| :: Within(items[i], depth + 1)
    case Obj(members) =>
      depth < FiniteJson.MAX_DEPTH && |members| <= FiniteJson.MAX_CONTAINER_ITEMS
      && forall i | 0 <= i < |members| ::
           |Utf8.Encode(members[i].key)| <= FiniteJson.MAX_KEY_BYTES && Within(members[i].value, depth + 1)
    case _ => true
  }

  ghost predicate ValidSection(s: Section) {
    && Within(s.data, 0)
    && (exists age, observedAt, updatedAt, state ::
          s.freshness == Freshness(age, observedAt, updatedAt, state) && observedAt != ""
          && state in {"fresh", "stale", "unknown"})
    && (s.complete <==> s.reason.None?)
  }

  /** What `build` has assembled when it starts to drop sections. */
  ghost predicate Assembled(e: Envelope) {
    && e.jobId != "" && |Utf8.Encode(e.jobId)| <= 256 && (forall i | 0 <= i < |e.jobId| :: e.jobId[i] as int >= 32)
    && e.generatedAt != ""
    && e.facts.Obj? && Within(e.facts, 0)
    && e.inferences.Arr? && |e.inferences.items| <= 32 && Within(e.inferences, 0)
    && e.actions.Arr? && |e.actions.items| <= 32 && Within(e.actions, 0)
    && (forall n: Name :: ValidSection(e.sections(n)))
    && e.complete == AllComplete(e.sections) && e.serializedBytes == 0
  }

  /** The i-th of four pieces of m letters, as long as a string may be. */
  function Piece(m: nat, i: nat): string {
    seq(Min(FiniteJson.MAX_STRING_BYTES, if m >= i * FiniteJson.MAX_STRING_BYTES then m - i * FiniteJson.MAX_STRING_BYTES else 0), _ => 'x')
  }

  function LogData(m: nat): Json {
    Arr([Str(Piece(m, 0)), Str(Piece(m, 1)), Str(Piece(m, 2)), Str(Piece(m, 3))])
  }

  lemma PieceLength(m: nat, i: nat)
    requires i < 4
    ensures |Render(Str(Piece(m, i)))| == 2 + |Piece(m, i)|
    ensures |Utf8.Encode(Piece(m, i))| <= FiniteJson.MAX_STRING_BYTES
  {
    LettersAreNotEscaped(Piece(m, i));
    Lengths(Piece(m, i), true);
    Utf8.AsciiEncode(Piece(m, i));
  }

  lemma FourItems(a: Json, b: Json, c: Json, d: Json)
    ensures |Render(Arr([a, b, c, d]))| == 5 + |Render(a)| + |Render(b)| + |Render(c)| + |Render(d)|
  {
    assert [a, b, c, d][1..] == [b, c, d] && [b, c, d][1..] == [c, d] && [c, d][1..] == [d];
    hide Render;
    assert RenderItems([d]) == Render(d);
    assert RenderItems([c, d]) == Render(c) + "," + RenderItems([d]);
    assert RenderItems([b, c, d]) == Render(b) + "," + RenderItems([c, d]);
    assert RenderItems([a, b, c, d]) == Render(a) + "," + RenderItems([b, c, d]);
  }

  lemma LogDataLength(m: nat)
    requires m <= 4 * FiniteJson.MAX_STRING_BYTES
    ensures |Render(LogData(m))| == 13 + m
  {
    PieceLength(m, 0);
    PieceLength(m, 1);
    PieceLength(m, 2);
    PieceLength(m, 3);
    hide Render;
    FourItems(Str(Piece(m, 0)), Str(Piece(m, 1)), Str(Piece(m, 2)), Str(Piece(m, 3)));
  }

  lemma LogDataIsWithin(m: nat)
    ensures Within(LogData(m), 0)
  {
    PieceLength(m, 0);
    PieceLength(m, 1);
    PieceLength(m, 2);
    PieceLength(m, 3);
    hide Piece;
  }

  /** What a diagnosis is made of besides its log. */
  datatype Frame = Frame(jobId: string, time: string, state: string)

  predicate Usable(f: Frame) {
    && Brief(f.jobId) && Utf8.Ascii(f.jobId) && (forall i | 0 <= i < |f.jobId| :: f.jobId[i] as int >= 32)
    && Brief(f.time) && Brief(f.state)
  }

  /** A log of m letters in four strings, and nothing else. */
  function LogOf(f: Frame, m: nat): Envelope {
    Envelope(f.time, f.jobId, Obj([]), Arr([]), Arr([]),
             (n: Name) => Section(true, if n == Logs then LogData(m) else Null, Observed(f.time, f.state), None), true, 0)
  }

  lemma SectionSwap(s: Section, data: Json)
    ensures |Render(SectionJson(s.(data := data)))| + |Render(s.data)| == |Render(SectionJson(s))| + |Render(data)|
  {
    ReplaceChangesLength(SectionJson(s).members, 1, data);
    assert SectionJson(s).members[1 := Member("data", data)] == SectionJson(s.(data := data)).members;
  }

  lemma SectionsSwap(s: Sections, t: Sections)
    requires forall n: Name | n != Logs :: s(n) == t(n)
    ensures |Render(SectionsJson(t))| + |Render(SectionJson(s(Logs)))| == |Render(SectionsJson(s))| + |Render(SectionJson(t(Logs)))|
  {
    hide Render, SectionJson;
    ReplaceChangesLength(SectionsJson(s).members, 2, SectionJson(t(Logs)));
    assert SectionsJson(s).members[2 := Member("logs", SectionJson(t(Logs)))] == SectionsJson(t).members;
  }

  lemma EnvelopeSwap(e: Envelope, t: Sections)
    ensures Length(e.(sections := t)) + |Render(SectionsJson(e.sections))| == Length(e) + |Render(SectionsJson(t))|
  {
    hide Render, SectionsJson;
    ReplaceChangesLength(Members(e), 7, SectionsJson(t));
    assert Members(e)[7 := Member("sections", SectionsJson(t))] == Members(e.(sections := t));
  }

  lemma LogLength(f: Frame, m: nat)
    requires m <= 4 * FiniteJson.MAX_STRING_BYTES
    ensures Length(LogOf(f, m)) == Length(LogOf(f, 0)) + m
  {
    LogDataLength(m);
    LogDataLength(0);
    hide Render, Length, SectionJson, SectionsJson, LogData, Observed;
    var s, t := LogOf(f, 0).sections, LogOf(f, m).sections;
    SectionSwap(s(Logs), LogData(m));
    SectionsSwap(s, t);
    EnvelopeSwap(LogOf(f, 0), t);
  }

  /** The refusal for want of four bytes is real, and dropping one more section would have
      avoided it: for every job a log, in strings of the size `section` lets through, that
      leaves the zero-size object at 65534 bytes. */
  lemma RefusedForFourBytes(f: Frame) returns (e: Envelope)
    requires Usable(f) && f.state in {"fresh", "stale", "unknown"}
    ensures Assembled(e) && Shortest(e, 0) && e.jobId == f.jobId
    ensures Length(Dropped(e, 0)) > MAX_SERIALIZED_BYTES - 4
    ensures Length(Dropped(e, 1)) <= MAX_SERIALIZED_BYTES - 4
  {
    LogsAreSmall(f, 0);
    var m: nat := 65534 - Length(LogOf(f, 0));
    LogLength(f, m);
    LogsAreSmall(f, m);
    e := LogOf(f, m);
    LogIsAssembled(f, m);
    hide Length, Render, Dropped, Shortest, AllComplete, Assembled, LogData, Observed;
    WidthMisfit(e);
  }

  lemma LogIsAssembled(f: Frame, m: nat)
    requires m <= 4 * FiniteJson.MAX_STRING_BYTES && Usable(f) && f.state in {"fresh", "stale", "unknown"}
    ensures Assembled(LogOf(f, m)) && LogOf(f, m).complete && forall n: Name :: LogOf(f, m).sections(n).complete
  {
    LogDataIsWithin(m);
    Utf8.AsciiEncode(f.jobId);
    var e := LogOf(f, m);
    hide LogData, Render, Freshness;
    forall n: Name ensures ValidSection(e.sections(n)) {
      assert e.sections(n).freshness == Freshness(Null, f.time, Null, f.state);
    }
    hide ValidSection;
  }

  lemma WidthMisfit(e: Envelope)
    requires Length(e) == 65534 && forall n: Name :: e.sections(n).complete
    ensures AllComplete(e.sections) && Shortest(e, 0) && Dropped(e, 0) == e
  {
    hide Length;
  }

  lemma LogMarked(f: Frame, m: nat)
    ensures SmallData(Dropped(LogOf(f, m), 1).sections, f.time, f.state)
    ensures Usable(f) ==> Plain(Dropped(LogOf(f, m), 1))
  {
    Lengths("", true);
    hide Render, LogData, Observed;
    assert OMISSION_ORDER[0] == Logs;
    assert Dropped(LogOf(f, m), 1) == Mark(LogOf(f, m), Logs);
  }

  lemma LogEmpty(f: Frame)
    ensures SmallData(LogOf(f, 0).sections, f.time, f.state)
    ensures Usable(f) ==> Plain(LogOf(f, 0))
  {
    LogDataLength(0);
    Lengths("", true);
    hide Render, LogData, Observed;
  }

  lemma LogsAreSmall(f: Frame, m: nat)
    requires Usable(f)
    ensures Length(LogOf(f, 0)) <= 60_000 && Length(Dropped(LogOf(f, m), 1)) <= 60_000
  {
    LogEmpty(f);
    LogMarked(f, m);
    hide Render, SectionsJson, Length, Dropped, SmallData, LogOf, Plain;
    SmallSections(LogOf(f, 0).sections, f.time, f.state);
    SmallEnvelope(LogOf(f, 0));
    var d := Dropped(LogOf(f, m), 1);
    SmallSections(d.sections, f.time, f.state);
    SmallEnvelope(d);
  }
}
