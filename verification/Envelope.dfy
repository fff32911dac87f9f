/** The custom and the private environment envelopes: what is accepted, and that decoding
    undoes encoding. A dictionary is its pairs in iteration order. */
module Envelope {
  import opened Common
  import opened Ordering
  import opened NulPairs
  import Utf8

  const MAX_CUSTOM_ENV_VARS: nat := 64
  const MAX_CUSTOM_ENV_VALUE_BYTES: nat := 16_384
  const MAX_CUSTOM_ENV_TOTAL_BYTES: nat := 65_536

  predicate Reserved(name: string) {
    name in {
      "HOME", "PATH", "USER", "LOGNAME", "SHELL", "TMPDIR", "BASH_ENV", "ENV", "BASHOPTS", "SHELLOPTS", "CDPATH",
      "GLOBIGNORE", "IFS", "LD_PRELOAD", "LD_AUDIT", "LD_LIBRARY_PATH", "TMUX", "TMUX_TMPDIR", "PWD", "OLDPWD", "SHLVL",
      "UID", "EUID", "PPID", "RANDOM", "SRANDOM", "SECONDS", "LINENO", "OPTARG", "OPTIND", "FUNCNAME", "GROUPS",
      "DIRSTACK", "PIPESTATUS", "HOSTNAME", "HOSTTYPE", "MACHTYPE", "OSTYPE", "PROMPT_COMMAND", "PS0", "PS1", "PS2",
      "PS3", "PS4", "CUDA_VISIBLE_DEVICES", "NVIDIA_VISIBLE_DEVICES", "ROCR_VISIBLE_DEVICES", "VIRTUAL_ENV",
      "UV_PROJECT_ENVIRONMENT"
    }
  }

  predicate Letter(c: char) {
    'A' <= c <= 'Z' || 'a' <= c <= 'z' || c == '_'
  }

  predicate Starts(prefix: string, s: string) {
    prefix <= s
  }

  /** `_validate_name`. */
  predicate ValidName(n: string) {
    && 1 <= |n| <= 128
    && Letter(n[0]) && (forall i | 0 <= i < |n| :: Letter(n[i]) || '0' <= n[i] <= '9')
    && !Starts("DT_", n) && !Starts("BASH", n) && !Reserved(n)
  }

  lemma ValidNamesPrint(n: string)
    requires ValidName(n)
    ensures Utf8.Ascii(n) && '\0' !in n && !Starts("DT_", n)
  {
  }

  // ---------- dictionaries ----------

  /** No name occurs twice. */
  ghost predicate Dict(ps: seq<Pair>) {
    forall i, k | 0 <= i < k < |ps| :: ps[i].name != ps[k].name
  }

  function AsMap(ps: seq<Pair>): map<string, string> {
    if ps == [] then map[] else AsMap(ps[..|ps| - 1])[ps[|ps| - 1].name := ps[|ps| - 1].value]
  }

  function PairsFor(names: seq<string>, m: map<string, string>): (r: seq<Pair>)
    requires forall n | n in names :: n in m
    ensures |r| == |names| && forall i | 0 <= i < |names| :: r[i] == Pair(names[i], m[names[i]])
  {
    seq(|names|, i requires 0 <= i < |names| => Pair(names[i], m[names[i]]))
  }

  /** The dictionary in sorted order. */
  function SortedPairs(m: map<string, string>): seq<Pair> {
    SortedMeans(m.Keys);
    PairsFor(Sorted(m.Keys), m)
  }

  lemma {:induction false} AsMapHas(ps: seq<Pair>, p: Pair)
    requires Dict(ps)
    ensures p in ps <==> p.name in AsMap(ps) && AsMap(ps)[p.name] == p.value
  {
    if ps != [] {
      var init, last := ps[..|ps| - 1], ps[|ps| - 1];
      AsMapHas(init, p);
      assert ps == init + [last];
      forall q | q in init ensures q.name != last.name {
        var i :| 0 <= i < |init| && init[i] == q;
        assert ps[i] == q;
      }
    }
  }

  lemma AsMapMeans(ps: seq<Pair>)
    requires Dict(ps)
    ensures forall p :: p in ps <==> p.name in AsMap(ps) && AsMap(ps)[p.name] == p.value
  {
    forall p ensures p in ps <==> p.name in AsMap(ps) && AsMap(ps)[p.name] == p.value {
      AsMapHas(ps, p);
    }
  }

  lemma SortedPairsMean(m: map<string, string>)
    ensures Dict(SortedPairs(m)) && forall p :: p in SortedPairs(m) <==> p.name in m && m[p.name] == p.value
  {
    SortedMeans(m.Keys);
    var names, ps := Sorted(m.Keys), SortedPairs(m);
    forall i, k | 0 <= i < k < |ps| ensures ps[i].name != ps[k].name {
      LessTotal(names[i], names[k]);
    }
    forall p ensures p in ps <==> p.name in m && m[p.name] == p.value {
      if p.name in m && m[p.name] == p.value {
        assert p.name in names;
        var i :| 0 <= i < |names| && names[i] == p.name;
        assert ps[i] == p;
      }
      if p in ps {
        var i :| 0 <= i < |ps| && ps[i] == p;
        assert names[i] in names;
      }
    }
  }

  lemma DictIsDistinct(ps: seq<Pair>)
    requires Dict(ps)
    ensures Distinct(ps)
  {
  }

  /** Two orders of one dictionary are permutations of each other. */
  lemma SameDictionary(ps: seq<Pair>, qs: seq<Pair>)
    requires Dict(ps) && Dict(qs)
    ensures AsMap(ps) == AsMap(qs) <==> multiset(ps) == multiset(qs)
  {
    AsMapMeans(ps);
    AsMapMeans(qs);
    DictIsDistinct(ps);
    DictIsDistinct(qs);
    if AsMap(ps) == AsMap(qs) {
      SameMembersSameMultiset(ps, qs);
    }
    if multiset(ps) == multiset(qs) {
      SameLength(ps, qs);
      SameMap(ps, qs);
    }
  }

  lemma SameMap(ps: seq<Pair>, qs: seq<Pair>)
    requires forall p :: p in ps <==> p.name in AsMap(ps) && AsMap(ps)[p.name] == p.value
    requires forall p :: p in qs <==> p.name in AsMap(qs) && AsMap(qs)[p.name] == p.value
    requires forall p :: p in ps <==> p in qs
    ensures AsMap(ps) == AsMap(qs)
  {
    hide AsMap;
    forall n | n in AsMap(ps) ensures n in AsMap(qs) && AsMap(qs)[n] == AsMap(ps)[n] {
      assert Pair(n, AsMap(ps)[n]) in ps;
    }
    forall n | n in AsMap(qs) ensures n in AsMap(ps) {
      assert Pair(n, AsMap(qs)[n]) in qs;
    }
  }

  lemma SortedIsPermutation(ps: seq<Pair>)
    requires Dict(ps)
    ensures Dict(SortedPairs(AsMap(ps))) && multiset(SortedPairs(AsMap(ps))) == multiset(ps)
    ensures AsMap(SortedPairs(AsMap(ps))) == AsMap(ps)
  {
    var qs := SortedPairs(AsMap(ps));
    AsMapMeans(ps);
    SortedPairsMean(AsMap(ps));
    DictIsDistinct(ps);
    DictIsDistinct(qs);
    SameMembersSameMultiset(ps, qs);
    SameDictionary(ps, qs);
  }

  lemma SizeRemove(ps: seq<Pair>, i: nat)
    requires i < |ps|
    ensures Size(ps) == |Utf8.Encode(ps[i].name)| + |Utf8.Encode(ps[i].value)| + 2 + Size(ps[..i] + ps[i + 1..])
  {
    if i == 0 {
      assert ps[..0] + ps[1..] == ps[1..];
    } else {
      SizeRemove(ps[1..], i - 1);
      assert (ps[..i] + ps[i + 1..])[1..] == ps[1..][..i - 1] + ps[1..][i..];
    }
  }

  lemma Without(ps: seq<Pair>, i: nat)
    requires i < |ps|
    ensures multiset(ps[..i] + ps[i + 1..]) == multiset(ps) - multiset{ps[i]}
  {
    assert ps == ps[..i] + [ps[i]] + ps[i + 1..];
  }

  lemma SameRest(ps: seq<Pair>, qs: seq<Pair>, i: nat)
    requires multiset(ps) == multiset(qs) && ps != [] && i < |qs| && qs[i] == ps[0]
    ensures multiset(ps[1..]) == multiset(qs[..i] + qs[i + 1..])
  {
    assert multiset(ps[1..]) == multiset(ps) - multiset{ps[0]} by {
      Without(ps, 0);
      assert ps[..0] + ps[1..] == ps[1..];
    }
    assert multiset(qs[..i] + qs[i + 1..]) == multiset(qs) - multiset{qs[i]} by {
      Without(qs, i);
    }
  }

  /** The counted size does not depend on the order. */
  lemma {:induction false} SizePermuted(ps: seq<Pair>, qs: seq<Pair>)
    requires multiset(ps) == multiset(qs)
    ensures Size(ps) == Size(qs)
  {
    SameLength(ps, qs);
    if ps != [] {
      assert ps[0] in qs;
      var i :| 0 <= i < |qs| && qs[i] == ps[0];
      SizeRemove(qs, i);
      SameRest(ps, qs, i);
      SizePermuted(ps[1..], qs[..i] + qs[i + 1..]);
    }
  }

  // ---------- the custom envelope ----------

  predicate CustomPair(p: Pair) {
    ValidName(p.name) && '\0' !in p.value && |Utf8.Encode(p.value)| <= MAX_CUSTOM_ENV_VALUE_BYTES
  }

  predicate Accepts(ps: seq<Pair>) {
    && |ps| <= MAX_CUSTOM_ENV_VARS
    && (forall i | 0 <= i < |ps| :: CustomPair(ps[i]))
    && Size(ps) <= MAX_CUSTOM_ENV_TOTAL_BYTES
  }

  lemma AcceptsAnyOrder(ps: seq<Pair>, qs: seq<Pair>)
    requires multiset(ps) == multiset(qs) && Accepts(ps)
    ensures Accepts(qs)
  {
    hide CustomPair, Size;
    SizePermuted(ps, qs);
    SameLength(ps, qs);
    forall i | 0 <= i < |qs| ensures CustomPair(qs[i]) {
      assert qs[i] in ps;
    }
  }

  lemma AcceptedPrint(ps: seq<Pair>)
    requires Accepts(ps)
    ensures Printable(ps)
  {
    hide ValidName, Size;
    forall i | 0 <= i < |ps| ensures Utf8.Ascii(ps[i].name) && '\0' !in ps[i].name && '\0' !in ps[i].value {
      ValidNamesPrint(ps[i].name);
    }
  }

  /** What `decode_nul_pairs` accepts, and as what. */
  ghost function Decoded(payload: Bytes): Option<map<string, string>> {
    var ps := Parse(payload);
    if |payload| <= MAX_CUSTOM_ENV_TOTAL_BYTES && ps.Some? && Dict(ps.value) && Accepts(ps.value)
    then Some(AsMap(ps.value)) else None
  }

  /** Decoding undoes encoding: every accepted dictionary comes back, and the decoder
      never rejects its own printer's output. */
  lemma CustomRoundTrip(values: seq<Pair>)
    requires Dict(values) && Accepts(values)
    ensures Decoded(EncodePairs(SortedPairs(AsMap(values)))) == Some(AsMap(values))
    ensures |EncodePairs(SortedPairs(AsMap(values)))| == Size(values)
  {
    var ps := SortedPairs(AsMap(values));
    SortedIsPermutation(values);
    AcceptsAnyOrder(values, ps);
    AcceptedPrint(ps);
    hide Printable, Size, CustomPair, SortedPairs;
    ParseEncode(ps);
    SizeIsLength(ps);
    SizePermuted(values, ps);
  }

  /** Two accepted payloads with the same dictionary differ only in the order of their pairs. */
  lemma PayloadsDifferInOrder(b1: Bytes, b2: Bytes)
    requires Decoded(b1).Some? && Decoded(b2).Some?
    ensures Parse(b1).Some? && Parse(b2).Some?
    ensures b1 == EncodePairs(Parse(b1).value) && b2 == EncodePairs(Parse(b2).value)
    ensures Decoded(b1) == Decoded(b2) <==> multiset(Parse(b1).value) == multiset(Parse(b2).value)
  {
    hide Parse, EncodePairs, Accepts;
    EncodeParse(b1);
    EncodeParse(b2);
    SameDictionary(Parse(b1).value, Parse(b2).value);
  }

  lemma {:induction false} SizeAppend(ps: seq<Pair>, p: Pair)
    ensures Size(ps + [p]) == Size(ps) + |Utf8.Encode(p.name)| + |Utf8.Encode(p.value)| + 2
  {
    SizeRemove(ps + [p], |ps|);
    assert (ps + [p])[..|ps|] + (ps + [p])[|ps| + 1..] == ps;
  }

  lemma {:induction false} SizePrefix(ps: seq<Pair>, i: nat)
    requires i <= |ps|
    ensures Size(ps[..i]) <= Size(ps)
    decreases |ps| - i
  {
    if i == |ps| {
      assert ps[..i] == ps;
    } else {
      assert ps[..i + 1] == ps[..i] + [ps[i]];
      SizeAppend(ps[..i], ps[i]);
      SizePrefix(ps, i + 1);
    }
  }

  lemma AsMapAppend(ps: seq<Pair>, p: Pair)
    ensures AsMap(ps + [p]) == AsMap(ps)[p.name := p.value]
  {
    assert (ps + [p])[..|ps|] == ps;
  }

  predicate NameChar(c: char) {
    'A' <= c <= 'Z' || 'a' <= c <= 'z' || '0' <= c <= '9' || c == '_'
  }

  lemma NamesExactly(n: string)
    ensures ValidName(n) <==>
            && 1 <= |n| <= 128 && !('0' <= n[0] <= '9') && (forall c | c in n :: NameChar(c))
            && !("DT_" <= n) && !("BASH" <= n) && !Reserved(n)
  {
    hide Reserved;
    assert (forall c | c in n :: NameChar(c)) <==> (forall i | 0 <= i < |n| :: NameChar(n[i]));
    assert forall i | 0 <= i < |n| :: NameChar(n[i]) <==> Letter(n[i]) || '0' <= n[i] <= '9';
    if 1 <= |n| && (forall c | c in n :: NameChar(c)) && !('0' <= n[0] <= '9') {
      assert NameChar(n[0]);
    }
  }

  /** The contract on one custom variable. */
  ghost predicate InContract(p: Pair) {
    && 1 <= |p.name| <= 128 && !('0' <= p.name[0] <= '9')
    && (forall c | c in p.name :: NameChar(c))
    && !("DT_" <= p.name) && !("BASH" <= p.name) && !Reserved(p.name)
    && '\0' !in p.value && |Utf8.Encode(p.value)| <= 16_384
  }

  lemma PairExactly(p: Pair)
    ensures CustomPair(p) <==> InContract(p)
  {
    NamesExactly(p.name);
    hide ValidName, Reserved;
  }

  lemma AcceptsExactly(values: seq<Pair>)
    ensures Accepts(values) <==>
              |values| <= 64 && (forall p | p in values :: InContract(p)) && Size(values) <= 65_536
  {
    hide Size, CustomPair, Reserved;
    forall p | p in values ensures CustomPair(p) <==> InContract(p) {
      PairExactly(p);
    }
    hide InContract;
    assert (forall i | 0 <= i < |values| :: CustomPair(values[i])) <==> (forall p | p in values :: InContract(p));
  }

  /** `custom_env.validate`: the running total is the printed size so far. */
  method Validate(values: seq<Pair>) returns (r: Option<map<string, string>>)
    requires Dict(values)
    ensures r.Some? <==> Accepts(values)
    ensures r.Some? ==> r.value == AsMap(values)
  {
    hide Size, ValidName;
    if |values| > MAX_CUSTOM_ENV_VARS {
      return None;
    }
    var result: map<string, string> := map[];
    var total := 0;
    SizeOfNone();
    for i := 0 to |values|
      invariant result == AsMap(values[..i])
      invariant total == Size(values[..i]) <= MAX_CUSTOM_ENV_TOTAL_BYTES
      invariant forall k | 0 <= k < i :: CustomPair(values[k])
    {
      var p := values[i];
      if !ValidName(p.name) || '\0' in p.value {
        return None;
      }
      var valueBytes := |Utf8.Encode(p.value)|;
      if valueBytes > MAX_CUSTOM_ENV_VALUE_BYTES {
        return None;
      }
      ValidNamesPrint(p.name);
      Utf8.AsciiEncode(p.name);
      assert values[..i + 1] == values[..i] + [p];
      SizeAppend(values[..i], p);
      AsMapAppend(values[..i], p);
      total := total + |p.name| + valueBytes + 2;
      if total > MAX_CUSTOM_ENV_TOTAL_BYTES {
        SizePrefix(values, i + 1);
        return None;
      }
      result := result[p.name := p.value];
    }
    assert values[..|values|] == values;
    return Some(result);
  }

  lemma SizeOfNone()
    ensures Size([]) == 0 && AsMap([]) == map[]
  {
  }

  function Printed(p: Pair): Bytes {
    Utf8.Encode(p.name) + [0] + (Utf8.Encode(p.value) + [0])
  }

  lemma PrintFirst(ps: seq<Pair>)
    requires ps != []
    ensures EncodePairs(ps) == Printed(ps[0]) + EncodePairs(ps[1..])
  {
    PairFieldsStep(ps);
    hide EncodePairs;
    var n, v, rest := Utf8.Encode(ps[0].name), Utf8.Encode(ps[0].value), EncodePairs(ps[1..]);
    Assoc(n + [0], v + [0], rest);
  }

  lemma NoPairs()
    ensures EncodePairs([]) == []
  {
  }

  lemma {:induction false} EncodeAppend(ps: seq<Pair>, p: Pair)
    ensures EncodePairs(ps + [p]) == EncodePairs(ps) + Printed(p)
  {
    hide EncodePairs, Printed;
    PrintFirst(ps + [p]);
    NoPairs();
    if ps == [] {
      assert (ps + [p])[1..] == [];
      assert Printed(p) + [] == Printed(p) == [] + Printed(p);
    } else {
      assert (ps + [p])[1..] == ps[1..] + [p];
      EncodeAppend(ps[1..], p);
      PrintFirst(ps);
      Assoc(Printed(ps[0]), EncodePairs(ps[1..]), Printed(p));
    }
  }

  /** The printing loop shared by both envelopes. */
  method PrintPairs(m: map<string, string>) returns (body: Bytes)
    ensures body == EncodePairs(SortedPairs(m))
  {
    hide EncodePairs;
    NoPairs();
    var ps := SortedPairs(m);
    body := [];
    for i := 0 to |ps|
      invariant body == EncodePairs(ps[..i])
    {
      EncodeAppend(ps[..i], ps[i]);
      assert ps[..i + 1] == ps[..i] + [ps[i]];
      body := body + Printed(ps[i]);
    }
    assert ps[..|ps|] == ps;
  }

  /** `encode_nul_pairs`, printed as UTF-8. */
  method EncodeNulPairs(values: seq<Pair>) returns (r: Option<Bytes>)
    requires Dict(values)
    ensures r.Some? <==> Accepts(values)
    ensures r.Some? ==> Decoded(r.value) == Some(AsMap(values)) && |r.value| == Size(values)
  {
    var normalized := Validate(values);
    if normalized.None? {
      return None;
    }
    var body := PrintPairs(normalized.value);
    CustomRoundTrip(values);
    return Some(body);
  }

  /** The decoding loop: names and values two by two, an ASCII name first. */
  method ReadPairs(payload: Bytes) returns (r: Option<seq<Pair>>)
    ensures r == Parse(payload)
  {
    if payload == [] {
      return Some([]);
    }
    if payload[|payload| - 1] != 0 {
      return None;
    }
    var fields := Split(payload[..|payload| - 1]);
    if |fields| % 2 != 0 {
      OddFields(fields);
      return None;
    }
    var done: seq<Pair> := [];
    var index := 0;
    assert fields[0..] == fields;
    NothingBefore(PairsOf(fields));
    while index < |fields|
      invariant index % 2 == 0 && index <= |fields|
      invariant PairsOf(fields) == var rest := PairsOf(fields[index..]); if rest.None? then None else Some(done + rest.value)
    {
      assert fields[index..][2..] == fields[index + 2..];
      var name, value := Utf8.Decode(fields[index]), Utf8.Decode(fields[index + 1]);
      if !Utf8.AsciiBytes(fields[index]) || name.None? || value.None? {
        return None;
      }
      Regroup(done, Pair(name.value, value.value), PairsOf(fields[index + 2..]));
      done := done + [Pair(name.value, value.value)];
      index := index + 2;
    }
    assert fields[index..] == [] && done + [] == done;
    return Some(done);
  }

  lemma NothingBefore(rest: Option<seq<Pair>>)
    ensures rest == if rest.None? then None else Some([] + rest.value)
  {
    if rest.Some? {
      assert [] + rest.value == rest.value;
    }
  }

  lemma Regroup(done: seq<Pair>, p: Pair, rest: Option<seq<Pair>>)
    ensures rest.Some? ==> done + ([p] + rest.value) == (done + [p]) + rest.value
  {
  }

  lemma {:induction false} OddFields(fields: seq<Bytes>)
    requires |fields| % 2 != 0
    ensures PairsOf(fields).None?
    decreases |fields|
  {
    if |fields| > 1 {
      OddFields(fields[2..]);
    }
  }

  /** `decode_nul_pairs`. */
  method DecodeNulPairs(payload: Bytes) returns (r: Option<map<string, string>>)
    ensures r == Decoded(payload)
  {
    hide Parse, ValidName, Size;
    if |payload| > MAX_CUSTOM_ENV_TOTAL_BYTES {
      return None;
    }
    var pairs := ReadPairs(payload);
    if pairs.None? || |pairs.value| > MAX_CUSTOM_ENV_VARS {
      return None;
    }
    var ps := pairs.value;
    for i := 0 to |ps|
      invariant Dict(ps[..i])
    {
      if !ValidName(ps[i].name) || exists k | 0 <= k < i :: ps[k].name == ps[i].name {
        return None;
      }
    }
    assert ps[..|ps|] == ps;
    r := Validate(ps);
  }

  // ---------- the private envelope ----------

  const MAX_PRIVATE_ENV_BYTES: nat := 131_072
  const MAX_PRIVATE_ENV_VARS: nat := 67
  const MAX_PRIVATE_VALUE_BYTES: nat := 65_536
  const INTERNAL_NAMES: set<string> := {"DT_LAUNCH_TOKEN", "DT_PROXY", "DT_WEBHOOK"}
  const MAGIC: Bytes := Utf8.Encode("DT_PRIVATE_ENV_V1") + [0]

  predicate Token(s: string) {
    |s| == 32 && forall i | 0 <= i < |s| :: '0' <= s[i] <= '9' || 'a' <= s[i] <= 'f'
  }

  predicate InternalPair(p: Pair) {
    && p.name in INTERNAL_NAMES && '\0' !in p.value && |Utf8.Encode(p.value)| <= MAX_PRIVATE_VALUE_BYTES
    && (p.name == "DT_LAUNCH_TOKEN" ==> Token(p.value))
  }

  predicate Internal(p: Pair) {
    Starts("DT_", p.name)
  }

  /** The pairs that go through the custom contract. */
  function Customs(ps: seq<Pair>): seq<Pair> {
    if ps == [] then []
    else Customs(ps[..|ps| - 1]) + if Internal(ps[|ps| - 1]) then [] else [ps[|ps| - 1]]
  }

  function Internals(ps: seq<Pair>): map<string, string> {
    if ps == [] then map[]
    else
      var p, rest := ps[|ps| - 1], Internals(ps[..|ps| - 1]);
      if Internal(p) then rest[p.name := p.value] else rest
  }

  lemma UpdateLeft(a: map<string, string>, b: map<string, string>, n: string, v: string)
    requires n !in b
    ensures a[n := v] + b == (a + b)[n := v]
  {
  }

  lemma UpdateRight(a: map<string, string>, b: map<string, string>, n: string, v: string)
    ensures a + b[n := v] == (a + b)[n := v]
  {
  }

  lemma {:induction false} CustomNames(ps: seq<Pair>)
    ensures forall n | n in AsMap(Customs(ps)) :: !Starts("DT_", n)
  {
    hide Starts;
    if ps != [] {
      var init, last := ps[..|ps| - 1], ps[|ps| - 1];
      CustomNames(init);
      if Internal(last) {
        assert Customs(init) + [] == Customs(init);
      } else {
        AsMapAppend(Customs(init), last);
      }
    }
  }

  /** The allowlisted and the custom names do not overlap: together they are the dictionary. */
  lemma {:induction false} Merged(ps: seq<Pair>)
    ensures Internals(ps) + AsMap(Customs(ps)) == AsMap(ps)
  {
    hide Starts;
    if ps != [] {
      var init, last := ps[..|ps| - 1], ps[|ps| - 1];
      Merged(init);
      CustomNames(init);
      AsMapAppend(init, last);
      assert init + [last] == ps;
      if Internal(last) {
        assert Customs(init) + [] == Customs(init);
        UpdateLeft(Internals(init), AsMap(Customs(init)), last.name, last.value);
      } else {
        AsMapAppend(Customs(init), last);
        UpdateRight(Internals(init), AsMap(Customs(init)), last.name, last.value);
      }
    }
  }

  predicate PrivateAccepts(ps: seq<Pair>) {
    && |ps| <= MAX_PRIVATE_ENV_VARS
    && (forall i | 0 <= i < |ps| && Internal(ps[i]) :: InternalPair(ps[i]))
    && Accepts(Customs(ps))
  }

  predicate TokenChar(c: char) {
    '0' <= c <= '9' || 'a' <= c <= 'f'
  }

  /** The contract on one variable of the launcher's own. */
  ghost predicate InPrivateContract(p: Pair) {
    && p.name in {"DT_LAUNCH_TOKEN", "DT_PROXY", "DT_WEBHOOK"}
    && '\0' !in p.value && |Utf8.Encode(p.value)| <= 65_536
    && (p.name == "DT_LAUNCH_TOKEN" ==> |p.value| == 32 && forall c | c in p.value :: TokenChar(c))
  }

  lemma InternalExactly(p: Pair)
    ensures InternalPair(p) <==> InPrivateContract(p)
  {
    hide Utf8.Encode;
    assert Token(p.value) <==> |p.value| == 32 && forall c | c in p.value :: TokenChar(c) by {
      assert (forall c | c in p.value :: TokenChar(c)) <==> (forall i | 0 <= i < |p.value| :: TokenChar(p.value[i]));
    }
    hide Token;
  }

  /** The contract on private dictionaries, variable by variable. */
  lemma PrivateAcceptsExactly(ps: seq<Pair>)
    ensures PrivateAccepts(ps) <==>
              |ps| <= 67 && (forall p | p in ps && "DT_" <= p.name :: InPrivateContract(p)) && Accepts(Customs(ps))
  {
    hide Accepts, Customs, InternalPair, InPrivateContract;
    forall p | p in ps ensures InternalPair(p) <==> InPrivateContract(p) {
      InternalExactly(p);
    }
    assert (forall i | 0 <= i < |ps| && Internal(ps[i]) :: InternalPair(ps[i])) <==>
           (forall p | p in ps && Internal(p) :: InPrivateContract(p));
  }

  lemma {:induction false} CustomsMean(ps: seq<Pair>)
    requires Dict(ps)
    ensures Dict(Customs(ps)) && |Customs(ps)| <= |ps|
    ensures forall p :: p in Customs(ps) <==> p in ps && !Internal(p)
  {
    if ps != [] {
      var init, last := ps[..|ps| - 1], ps[|ps| - 1];
      CustomsMean(init);
      hide Internal;
      assert ps == init + [last];
      forall i | 0 <= i < |Customs(init)| ensures Customs(init)[i].name != last.name {
        assert Customs(init)[i] in init;
      }
    }
  }

  lemma PrivateAnyOrder(ps: seq<Pair>, qs: seq<Pair>)
    requires Dict(ps) && Dict(qs) && multiset(ps) == multiset(qs) && PrivateAccepts(ps)
    ensures PrivateAccepts(qs)
  {
    hide Internal, InternalPair, Accepts, Customs;
    SameLength(ps, qs);
    CustomsMean(ps);
    CustomsMean(qs);
    DictIsDistinct(Customs(ps));
    DictIsDistinct(Customs(qs));
    SameMembersSameMultiset(Customs(ps), Customs(qs));
    AcceptsAnyOrder(Customs(ps), Customs(qs));
    forall i | 0 <= i < |qs| && Internal(qs[i]) ensures InternalPair(qs[i]) {
      assert qs[i] in ps;
    }
  }

  lemma InternalNamesPrint(n: string)
    requires n in INTERNAL_NAMES
    ensures Utf8.Ascii(n) && '\0' !in n
  {
    if n == "DT_PROXY" {
    } else if n == "DT_WEBHOOK" {
    } else {
      assert n == "DT_LAUNCH_TOKEN";
    }
  }

  lemma PrivatePrint(ps: seq<Pair>)
    requires Dict(ps) && PrivateAccepts(ps)
    ensures Printable(ps)
  {
    hide Internal, Size, Customs, ValidName, Token, INTERNAL_NAMES;
    CustomsMean(ps);
    forall i | 0 <= i < |ps| ensures Utf8.Ascii(ps[i].name) && '\0' !in ps[i].name && '\0' !in ps[i].value {
      if Internal(ps[i]) {
        InternalNamesPrint(ps[i].name);
      } else {
        assert ps[i] in Customs(ps);
        var k :| 0 <= k < |Customs(ps)| && Customs(ps)[k] == ps[i];
        ValidNamesPrint(ps[i].name);
      }
    }
  }

  /** What `decode` accepts, and as what. */
  ghost function DecodedPrivate(payload: Bytes): Option<map<string, string>> {
    if |payload| > MAX_PRIVATE_ENV_BYTES || !(MAGIC <= payload) then None
    else
      var ps := Parse(payload[|MAGIC|..]);
      if ps.Some? && Dict(ps.value) && PrivateAccepts(ps.value) then Some(AsMap(ps.value)) else None
  }

  lemma PrivateRoundTrip(values: seq<Pair>)
    requires Dict(values) && PrivateAccepts(values) && |MAGIC| + Size(values) <= MAX_PRIVATE_ENV_BYTES
    ensures var payload := MAGIC + EncodePairs(SortedPairs(AsMap(values)));
            DecodedPrivate(payload) == Some(AsMap(values)) && |payload| == |MAGIC| + Size(values)
  {
    var ps := SortedPairs(AsMap(values));
    SortedIsPermutation(values);
    PrivateAnyOrder(values, ps);
    PrivatePrint(ps);
    hide Printable, Size, PrivateAccepts, SortedPairs, MAGIC;
    ParseEncode(ps);
    SizeIsLength(ps);
    SizePermuted(values, ps);
    var body := EncodePairs(ps);
    assert (MAGIC + body)[|MAGIC|..] == body && (MAGIC + body)[..|MAGIC|] == MAGIC;
  }

  /** The same holds of private envelopes: the pairs fix everything but the order. */
  lemma PrivatePayloadsDifferInOrder(b1: Bytes, b2: Bytes)
    requires DecodedPrivate(b1).Some? && DecodedPrivate(b2).Some?
    ensures MAGIC <= b1 && MAGIC <= b2
    ensures var p1, p2 := Parse(b1[|MAGIC|..]), Parse(b2[|MAGIC|..]);
            && p1.Some? && p2.Some?
            && b1 == MAGIC + EncodePairs(p1.value) && b2 == MAGIC + EncodePairs(p2.value)
            && (DecodedPrivate(b1) == DecodedPrivate(b2) <==> multiset(p1.value) == multiset(p2.value))
  {
    hide Parse, EncodePairs, PrivateAccepts, MAGIC;
    EncodeParse(b1[|MAGIC|..]);
    EncodeParse(b2[|MAGIC|..]);
    SameDictionary(Parse(b1[|MAGIC|..]).value, Parse(b2[|MAGIC|..]).value);
  }

  /** `_normalize`: the allowlisted names here, all others by the custom contract. */
  method Normalize(values: seq<Pair>) returns (r: Option<map<string, string>>)
    requires Dict(values)
    ensures r.Some? <==> PrivateAccepts(values)
    ensures r.Some? ==> r.value == AsMap(values)
  {
    hide InternalPair, Internal, Accepts;
    if |values| > MAX_PRIVATE_ENV_VARS {
      return None;
    }
    var custom: seq<Pair> := [];
    var internal: map<string, string> := map[];
    for i := 0 to |values|
      invariant custom == Customs(values[..i]) && internal == Internals(values[..i])
      invariant forall k | 0 <= k < i && Internal(values[k]) :: InternalPair(values[k])
    {
      assert values[..i + 1][..i] == values[..i];
      if Internal(values[i]) {
        if !InternalPair(values[i]) {
          return None;
        }
        internal := internal[values[i].name := values[i].value];
      } else {
        custom := custom + [values[i]];
      }
    }
    assert values[..|values|] == values;
    CustomsMean(values);
    var normalized := Validate(custom);
    if normalized.None? {
      return None;
    }
    Merged(values);
    return Some(internal + normalized.value);
  }

  /** `encode`: refused exactly for a dictionary out of contract or too large to print. */
  method EncodePrivate(values: seq<Pair>) returns (r: Option<Bytes>)
    requires Dict(values)
    ensures r.Some? <==> PrivateAccepts(values) && |MAGIC| + Size(values) <= MAX_PRIVATE_ENV_BYTES
    ensures r.Some? ==> DecodedPrivate(r.value) == Some(AsMap(values))
  {
    hide PrivateAccepts, MAGIC;
    var normalized := Normalize(values);
    if normalized.None? {
      return None;
    }
    var body := PrintPairs(normalized.value);
    SortedIsPermutation(values);
    SizeIsLength(SortedPairs(AsMap(values)));
    SizePermuted(values, SortedPairs(AsMap(values)));
    var payload := MAGIC + body;
    if |payload| > MAX_PRIVATE_ENV_BYTES {
      return None;
    }
    PrivateRoundTrip(values);
    return Some(payload);
  }

  /** `decode`. */
  method DecodePrivate(payload: Bytes) returns (r: Option<map<string, string>>)
    ensures r == DecodedPrivate(payload)
  {
    hide Parse, PrivateAccepts, MAGIC;
    if |payload| > MAX_PRIVATE_ENV_BYTES || !(MAGIC <= payload) {
      return None;
    }
    var pairs := ReadPairs(payload[|MAGIC|..]);
    if pairs.None? {
      return None;
    }
    var ps := pairs.value;
    for i := 0 to |ps|
      invariant Dict(ps[..i])
    {
      if exists k | 0 <= k < i :: ps[k].name == ps[i].name {
        return None;
      }
    }
    assert ps[..|ps|] == ps;
    r := Normalize(ps);
  }
}
