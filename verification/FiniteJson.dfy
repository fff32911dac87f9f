/** Normalizing untrusted evidence to bounded, finite JSON. */
module FiniteJson {
  import opened Common
  import Utf8

  const MAX_CONTAINER_ITEMS: nat := 128
  const MAX_DEPTH: nat := 8
  const MAX_STRING_BYTES: nat := 16_384
  const MAX_KEY_BYTES: nat := 256
  const MAX_INT: int := 1_000_000_000_000_000_000

  const SUFFIX: string := "\n[dt: value omitted at byte limit]"

  // ---------- truncation at a byte limit ----------

  lemma SuffixIsAscii()
    ensures Utf8.Ascii(SUFFIX)
  {
  }

  lemma AsciiPrefix(mark: string, n: nat)
    requires Utf8.Ascii(mark) && n <= |mark|
    ensures |Utf8.Encode(mark)| == |mark| && |Utf8.Encode(mark[..n])| == n
  {
    Utf8.AsciiEncode(mark);
    Utf8.AsciiEncode(mark[..n]);
  }

  lemma {:induction false} EncodeConcat(a: string, b: string)
    ensures Utf8.Encode(a + b) == Utf8.Encode(a) + Utf8.Encode(b)
  {
    if a == [] {
      assert a + b == b;
    } else {
      EncodeConcat(a[1..], b);
      assert (a + b)[1..] == a[1..] + b;
      Assoc(Utf8.EncodeChar(a[0]), Utf8.Encode(a[1..]), Utf8.Encode(b));
    }
  }

  lemma EncodeEmpty(s: string)
    ensures |Utf8.Encode(s)| == 0 <==> |s| == 0
  {
  }

  /** Text whose bytes are a prefix of other text's bytes is a prefix of that text. */
  lemma {:induction false} BytePrefixIsTextPrefix(t: string, s: string)
    requires Utf8.Encode(t) <= Utf8.Encode(s)
    ensures t <= s
  {
    if t != [] {
      var b := Utf8.Encode(s);
      assert s != [];
      Utf8.FirstOfEncoded(t[0], b[|Utf8.EncodeChar(t[0])|..]);
      Utf8.FirstOfEncoded(s[0], Utf8.Encode(s[1..]));
      assert b == Utf8.EncodeChar(t[0]) + b[|Utf8.EncodeChar(t[0])|..];
      assert t[0] == s[0];
      Tails(t, s);
      BytePrefixIsTextPrefix(t[1..], s[1..]);
      assert t == [t[0]] + t[1..] && s == [s[0]] + s[1..];
    }
  }

  lemma Tails(t: string, s: string)
    requires t != [] && s != [] && t[0] == s[0] && Utf8.Encode(t) <= Utf8.Encode(s)
    ensures Utf8.Encode(t[1..]) <= Utf8.Encode(s[1..])
  {
    hide Utf8.EncodeChar;
    var n := |Utf8.EncodeChar(t[0])|;
    assert Utf8.Encode(t)[n..] == Utf8.Encode(t[1..]) && Utf8.Encode(s)[n..] == Utf8.Encode(s[1..]);
  }

  /** The most characters of s that fit n bytes. */
  function Fitting(s: string, n: nat): (k: nat)
    ensures k <= |s|
  {
    if s == [] || |Utf8.Encode(s)| <= n then |s| else Fitting(s[..|s| - 1], n)
  }

  lemma {:induction false} FittingIsLongest(s: string, n: nat, j: nat)
    requires j <= |s|
    ensures |Utf8.Encode(s[..Fitting(s, n)])| <= n
    ensures j > Fitting(s, n) ==> |Utf8.Encode(s[..j])| > n
  {
    if s == [] || |Utf8.Encode(s)| <= n {
      assert s[..|s|] == s;
    } else {
      var init := s[..|s| - 1];
      assert forall i | 0 <= i <= |init| :: init[..i] == s[..i];
      FittingIsLongest(init, n, if j < |s| then j else 0);
      assert s[..|s|] == s;
    }
  }

  /** What truncation leaves: as much whole text as fits beside the mark. */
  function Marked(s: string, limit: nat, mark: string): string {
    if |Utf8.Encode(s)| <= limit then s
    else if limit < |mark| then mark[..limit]
    else s[..Fitting(s, limit - |mark|)] + mark
  }

  function Truncated(s: string, limit: nat): string {
    Marked(s, limit, SUFFIX)
  }

  lemma MarkedFits(s: string, limit: nat, mark: string)
    requires Utf8.Ascii(mark)
    ensures |Utf8.Encode(Marked(s, limit, mark))| <= limit
    ensures Marked(s, limit, mark) == s <==> |Utf8.Encode(s)| <= limit
  {
    if |Utf8.Encode(s)| > limit {
      AsciiPrefix(mark, Min(limit, |mark|));
      if limit >= |mark| {
        FittingIsLongest(s, limit - |mark|, 0);
        EncodeConcat(s[..Fitting(s, limit - |mark|)], mark);
      }
    }
  }

  /** Truncated text fits, and only text that fits is left alone. */
  lemma TruncatedFits(s: string, limit: nat)
    ensures |Utf8.Encode(Truncated(s, limit))| <= limit
    ensures Truncated(s, limit) == s <==> |Utf8.Encode(s)| <= limit
  {
    SuffixIsAscii();
    hide Marked;
    MarkedFits(s, limit, SUFFIX);
  }

  /** The cut lies on a character boundary exactly when the bytes before it decode. */
  lemma CutDecodes(s: string, m: nat)
    requires m <= |Utf8.Encode(s)|
    ensures Utf8.Decode(Utf8.Encode(s)[..m]).Some? <==> exists k :: 0 <= k <= |s| && Utf8.Encode(s[..k]) == Utf8.Encode(s)[..m]
    ensures Utf8.Decode(Utf8.Encode(s)[..m]).Some? ==>
              var t := Utf8.Decode(Utf8.Encode(s)[..m]).value; t <= s && |Utf8.Encode(t)| == m
  {
    var b := Utf8.Encode(s)[..m];
    if Utf8.Decode(b).Some? {
      var t := Utf8.Decode(b).value;
      Utf8.EncodeDecode(b);
      BytePrefixIsTextPrefix(t, s);
      assert s[..|t|] == t;
    }
    if exists k :: 0 <= k <= |s| && Utf8.Encode(s[..k]) == b {
      var k :| 0 <= k <= |s| && Utf8.Encode(s[..k]) == b;
      Utf8.DecodeEncode(s[..k]);
    }
  }

  lemma EncodePrefix(s: string, k: nat)
    requires k <= |s|
    ensures Utf8.Encode(s[..k]) <= Utf8.Encode(s)
  {
    hide Utf8.Encode;
    assert s[..k] + s[k..] == s;
    EncodeConcat(s[..k], s[k..]);
    Starts(Utf8.Encode(s[..k]), Utf8.Encode(s[k..]));
  }

  lemma Starts(a: seq<byte>, b: seq<byte>)
    ensures a <= a + b
  {
  }

  /** `_truncate_utf8`: cutting bytes until they decode is cutting whole characters. */
  method TruncateUtf8(value: string, limit: nat) returns (r: string, cut: bool)
    ensures r == Truncated(value, limit)
    ensures cut <==> |Utf8.Encode(value)| > limit
    ensures |Utf8.Encode(r)| <= limit
  {
    TruncatedFits(value, limit);
    cut := |Utf8.Encode(value)| > limit;
    r := CutBytes(value, limit, SUFFIX);
  }

  method CutBytes(value: string, limit: nat, mark: string) returns (r: string)
    ensures r == Marked(value, limit, mark)
  {
    var encoded := Utf8.Encode(value);
    if |encoded| <= limit {
      return value;
    }
    if limit < |mark| {
      return mark[..limit];
    }
    var n := limit - |mark|;
    ghost var k := Fitting(value, n);
    FittingIsLongest(value, n, 0);
    EncodePrefix(value, k);
    var m := n;
    while m > 0
      invariant |Utf8.Encode(value[..k])| <= m <= n
    {
      CutDecodes(value, m);
      var prefix := Utf8.Decode(encoded[..m]);
      if prefix.Some? {
        LongestCut(value, n, m, prefix.value);
        return prefix.value + mark;
      }
      assert encoded[..m] != Utf8.Encode(value[..k]);
      m := m - 1;
    }
    NoRoom(value, k, mark);
    return mark;
  }

  lemma NoRoom(value: string, k: nat, mark: string)
    requires k <= |value| && |Utf8.Encode(value[..k])| == 0
    ensures value[..k] + mark == mark
  {
    EncodeEmpty(value[..k]);
  }

  lemma LongestCut(value: string, n: nat, m: nat, t: string)
    requires t <= value && |Utf8.Encode(t)| == m <= n && |Utf8.Encode(value[..Fitting(value, n)])| <= m
    ensures t == value[..Fitting(value, n)]
  {
    var k := Fitting(value, n);
    FittingIsLongest(value, n, |t|);
    assert value[..|t|] == t;
    var j := Min(|t|, k);
    assert value[..j] + value[j..k] == value[..k];
    EncodeConcat(value[..j], value[j..k]);
    EncodeEmpty(value[j..k]);
  }

  // ---------- normalization ----------

  /** Evidence as it arrives; a key is None unless it is text. */
  datatype Raw =
    | RNull
    | RBool(b: bool)
    | RInt(n: int)
    | RFloat(finite: bool, text: string)
    | RStr(s: string)
    | RArr(items: seq<Raw>)
    | RObj(members: seq<RawMember>)
    | ROther

  datatype RawMember = RawMember(key: Option<string>, value: Raw)

  /** `_finite_json`: the normalized value and whether anything was omitted. */
  function Normalized(v: Raw, depth: nat): (Raw, bool)
    decreases v
  {
    match v
    case RNull => (v, false)
    case RBool(_) => (v, false)
    case RInt(n) => if -MAX_INT <= n <= MAX_INT then (v, false) else (RNull, true)
    case RFloat(finite, _) => if finite then (v, false) else (RNull, true)
    case RStr(s) => (RStr(Truncated(s, MAX_STRING_BYTES)), |Utf8.Encode(s)| > MAX_STRING_BYTES)
    case RArr(items) =>
      if depth >= MAX_DEPTH then (RNull, true)
      else
        var r := Items(items, Min(|items|, MAX_CONTAINER_ITEMS), depth + 1);
        (RArr(r.0), r.1 || |items| > MAX_CONTAINER_ITEMS)
    case RObj(members) =>
      if depth >= MAX_DEPTH then (RNull, true)
      else
        var r := Members(members, Min(|members|, MAX_CONTAINER_ITEMS), depth + 1);
        (RObj(r.0), r.1 || |members| > MAX_CONTAINER_ITEMS)
    case ROther => (RNull, true)
  }

  /** The first n items. */
  function Items(items: seq<Raw>, n: nat, depth: nat): (seq<Raw>, bool)
    requires n <= |items|
    decreases items, n
  {
    if n == 0 then ([], false)
    else
      var before, item := Items(items, n - 1, depth), Normalized(items[n - 1], depth);
      (before.0 + [item.0], before.1 || item.1)
  }

  predicate HasKey(members: seq<RawMember>, key: string) {
    exists i | 0 <= i < |members| :: members[i].key == Some(key)
  }

  /** One more member, its value normalized: a key that is no text, or that an earlier one
      was cut to, is dropped. */
  function WithMember(before: (seq<RawMember>, bool), m: RawMember, item: (Raw, bool)): (seq<RawMember>, bool) {
    if m.key.None? || HasKey(before.0, Truncated(m.key.value, MAX_KEY_BYTES)) then (before.0, true)
    else
      (before.0 + [RawMember(Some(Truncated(m.key.value, MAX_KEY_BYTES)), item.0)],
       before.1 || item.1 || |Utf8.Encode(m.key.value)| > MAX_KEY_BYTES)
  }

  /** The first n members. */
  function Members(members: seq<RawMember>, n: nat, depth: nat): (seq<RawMember>, bool)
    requires n <= |members|
    decreases members, n
  {
    if n == 0 then ([], false)
    else WithMember(Members(members, n - 1, depth), members[n - 1], MemberValue(members[n - 1], depth))
  }

  function MemberValue(m: RawMember, depth: nat): (Raw, bool)
    decreases m
  {
    Normalized(m.value, depth)
  }

  // ---------- what is kept ----------

  /** Of a list the first 128 items are kept, each normalized by itself. */
  lemma ListKeeps(items: seq<Raw>, depth: nat)
    requires depth < MAX_DEPTH
    ensures var r := Normalized(RArr(items), depth).0;
            r.RArr? && |r.items| == Min(|items|, 128)
            && forall i | 0 <= i < |r.items| :: r.items[i] == Normalized(items[i], depth + 1).0
  {
    ItemsKeep(items, Min(|items|, MAX_CONTAINER_ITEMS), depth + 1);
    hide Items;
  }

  lemma {:induction false} ItemsKeep(items: seq<Raw>, n: nat, depth: nat)
    requires n <= |items|
    ensures |Items(items, n, depth).0| == n
    ensures forall i | 0 <= i < n :: Items(items, n, depth).0[i] == Normalized(items[i], depth).0
  {
    if n > 0 {
      ItemsKeep(items, n - 1, depth);
      hide Normalized;
    }
  }

  predicate CutTo(m: RawMember, key: string) {
    m.key.Some? && Truncated(m.key.value, MAX_KEY_BYTES) == key
  }

  /** Member i is the first whose key is cut to this one. */
  ghost predicate FirstWith(members: seq<RawMember>, i: nat, key: string) {
    && i < |members| && CutTo(members[i], key)
    && forall k | 0 <= k < i :: !CutTo(members[k], key)
  }

  /** Such a member is among the first n, with this value after normalizing. */
  ghost predicate Kept(members: seq<RawMember>, n: nat, depth: nat, key: string, value: Raw) {
    exists i: nat :: i < n && FirstWith(members, i, key) && value == Normalized(members[i].value, depth).0
  }

  ghost predicate Seen(members: seq<RawMember>, n: nat, key: string) {
    exists i: nat :: i < n && i < |members| && CutTo(members[i], key)
  }

  lemma KeptStep(members: seq<RawMember>, n: nat, depth: nat, key: string, value: Raw)
    requires 0 < n <= |members|
    ensures var m := members[n - 1];
            && (Seen(members, n, key) <==> Seen(members, n - 1, key) || CutTo(m, key))
            && (Kept(members, n, depth, key, value) <==>
                  || Kept(members, n - 1, depth, key, value)
                  || (CutTo(m, key) && !Seen(members, n - 1, key) && value == Normalized(m.value, depth).0))
  {
    hide Normalized, CutTo;
  }

  /** Of the first 128 members of an object the first with each cut key is kept, with its
      value normalized by itself. */
  lemma ObjectKeeps(members: seq<RawMember>, depth: nat, key: string, value: Raw)
    requires depth < MAX_DEPTH
    ensures var r := Normalized(RObj(members), depth).0;
            r.RObj? && (RawMember(Some(key), value) in r.members <==> Kept(members, Min(|members|, 128), depth + 1, key, value))
  {
    MembersKeep(members, Min(|members|, MAX_CONTAINER_ITEMS), depth + 1, key, value);
    hide Members, Kept;
  }

  lemma {:induction false} MembersKeep(members: seq<RawMember>, n: nat, depth: nat, key: string, value: Raw)
    requires n <= |members|
    ensures var r := Members(members, n, depth).0;
            && (HasKey(r, key) <==> Seen(members, n, key))
            && (RawMember(Some(key), value) in r <==> Kept(members, n, depth, key, value))
  {
    if n > 0 {
      MembersKeep(members, n - 1, depth, key, value);
      hide Normalized, Truncated, WithMember, HasKey, Seen, Kept, CutTo;
      var before, m := Members(members, n - 1, depth), members[n - 1];
      OneMoreMember(before, m, MemberValue(m, depth), key, value);
      KeptStep(members, n, depth, key, value);
    }
  }

  lemma OneMoreMember(before: (seq<RawMember>, bool), m: RawMember, item: (Raw, bool), key: string, value: Raw)
    ensures var r := WithMember(before, m, item).0;
            && (HasKey(r, key) <==> HasKey(before.0, key) || CutTo(m, key))
            && (RawMember(Some(key), value) in r <==>
                  RawMember(Some(key), value) in before.0 || (CutTo(m, key) && !HasKey(before.0, key) && value == item.0))
  {
    hide Truncated;
    if m.key.Some? && !HasKey(before.0, Truncated(m.key.value, MAX_KEY_BYTES)) {
      var last := RawMember(Some(Truncated(m.key.value, MAX_KEY_BYTES)), item.0);
      var r := before.0 + [last];
      assert r[|before.0|] == last && forall i | 0 <= i < |before.0| :: r[i] == before.0[i];
    }
  }

  /** The bounded values: finite, shallow, short, and with distinct keys. */
  predicate Bounded(v: Raw, depth: nat)
    decreases v
  {
    match v
    case RNull => true
    case RBool(_) => true
    case RInt(n) => -MAX_INT <= n <= MAX_INT
    case RFloat(finite, _) => finite
    case RStr(s) => |Utf8.Encode(s)| <= MAX_STRING_BYTES
    case RArr(items) =>
      depth < MAX_DEPTH && |items| <= MAX_CONTAINER_ITEMS && forall i | 0 <= i < |items| :: Bounded(items[i], depth + 1)
    case RObj(members) =>
      && depth < MAX_DEPTH && |members| <= MAX_CONTAINER_ITEMS
      && DistinctKeys(members)
      && (forall i | 0 <= i < |members| :: ShortKey(members[i]) && Bounded(members[i].value, depth + 1))
    case ROther => false
  }

  predicate ShortKey(m: RawMember) {
    m.key.Some? && |Utf8.Encode(m.key.value)| <= MAX_KEY_BYTES
  }

  predicate DistinctKeys(members: seq<RawMember>) {
    forall i, k | 0 <= i < k < |members| :: members[i].key != members[k].key
  }

  /** Whatever arrives, the result is bounded. */
  lemma {:induction false} NormalizedIsBounded(v: Raw, depth: nat)
    ensures Bounded(Normalized(v, depth).0, depth)
    decreases v
  {
    match v
    case RStr(s) => TruncatedFits(s, MAX_STRING_BYTES);
    case RArr(items) => ItemsAreBounded(items, Min(|items|, MAX_CONTAINER_ITEMS), depth + 1);
    case RObj(members) => MembersAreBounded(members, Min(|members|, MAX_CONTAINER_ITEMS), depth + 1);
    case _ =>
  }

  lemma {:induction false} ItemsAreBounded(items: seq<Raw>, n: nat, depth: nat)
    requires n <= |items|
    ensures |Items(items, n, depth).0| == n
    ensures forall i | 0 <= i < n :: Bounded(Items(items, n, depth).0[i], depth)
    decreases items, n
  {
    if n > 0 {
      ItemsAreBounded(items, n - 1, depth);
      NormalizedIsBounded(items[n - 1], depth);
      hide Bounded, Normalized;
    }
  }

  ghost predicate BoundedMembers(members: seq<RawMember>, depth: nat) {
    && DistinctKeys(members)
    && forall i | 0 <= i < |members| :: ShortKey(members[i]) && Bounded(members[i].value, depth)
  }

  lemma WithMemberIsBounded(before: (seq<RawMember>, bool), m: RawMember, item: (Raw, bool), depth: nat)
    requires BoundedMembers(before.0, depth) && Bounded(item.0, depth)
    ensures BoundedMembers(WithMember(before, m, item).0, depth)
    ensures |WithMember(before, m, item).0| <= |before.0| + 1
  {
    if m.key.Some? {
      TruncatedFits(m.key.value, MAX_KEY_BYTES);
      hide Bounded, Truncated;
      KeysGrow(before.0, RawMember(Some(Truncated(m.key.value, MAX_KEY_BYTES)), item.0));
    }
  }

  lemma {:induction false} MembersAreBounded(members: seq<RawMember>, n: nat, depth: nat)
    requires n <= |members|
    ensures BoundedMembers(Members(members, n, depth).0, depth) && |Members(members, n, depth).0| <= n
    decreases members, n
  {
    if n > 0 {
      MembersAreBounded(members, n - 1, depth);
      MemberIsBounded(members[n - 1], depth);
      hide Bounded, MemberValue, WithMember, BoundedMembers;
      WithMemberIsBounded(Members(members, n - 1, depth), members[n - 1], MemberValue(members[n - 1], depth), depth);
    }
  }

  lemma {:induction false} MemberIsBounded(m: RawMember, depth: nat)
    ensures Bounded(MemberValue(m, depth).0, depth)
    decreases m
  {
    NormalizedIsBounded(m.value, depth);
  }

  lemma {:induction false} MemberExactly(m: RawMember, depth: nat)
    ensures Bounded(m.value, depth) <==> !MemberValue(m, depth).1
    ensures Bounded(m.value, depth) ==> MemberValue(m, depth).0 == m.value
    decreases m
  {
    NormalizedExactly(m.value, depth);
  }

  /** Nothing is reported omitted exactly for bounded values, and those come back as they
      are: normalizing twice is normalizing once. */
  lemma {:induction false} NormalizedExactly(v: Raw, depth: nat)
    ensures Bounded(v, depth) <==> !Normalized(v, depth).1
    ensures Bounded(v, depth) ==> Normalized(v, depth).0 == v
    decreases v
  {
    match v
    case RStr(s) => TruncatedFits(s, MAX_STRING_BYTES);
    case RArr(items) => ItemsExactly(items, Min(|items|, MAX_CONTAINER_ITEMS), depth + 1);
    case RObj(members) =>
      MembersExactly(members, Min(|members|, MAX_CONTAINER_ITEMS), depth + 1);
      assert members[..|members|] == members;
    case _ =>
  }

  lemma {:induction false} ItemsExactly(items: seq<Raw>, n: nat, depth: nat)
    requires n <= |items|
    ensures (forall i | 0 <= i < n :: Bounded(items[i], depth)) <==> !Items(items, n, depth).1
    ensures !Items(items, n, depth).1 ==> Items(items, n, depth).0 == items[..n]
    decreases items, n
  {
    if n > 0 {
      ItemsExactly(items, n - 1, depth);
      NormalizedExactly(items[n - 1], depth);
      hide Bounded, Normalized;
      assert items[..n] == items[..n - 1] + [items[n - 1]];
    }
  }

  lemma KeysGrow(members: seq<RawMember>, m: RawMember)
    ensures DistinctKeys(members + [m]) <==> DistinctKeys(members) && forall i | 0 <= i < |members| :: members[i].key != m.key
  {
    var after := members + [m];
    if DistinctKeys(after) {
      forall i, k | 0 <= i < k < |members| ensures members[i].key != members[k].key {
        assert after[i].key != after[k].key;
      }
      forall i | 0 <= i < |members| ensures members[i].key != m.key {
        assert after[i].key != after[|members|].key;
      }
    }
  }

  lemma WithMemberExactly(before: (seq<RawMember>, bool), m: RawMember, item: (Raw, bool), depth: nat, done: seq<RawMember>)
    requires BoundedMembers(done, depth) <==> !before.1
    requires !before.1 ==> before.0 == done
    requires Bounded(m.value, depth) <==> !item.1
    requires Bounded(m.value, depth) ==> item.0 == m.value
    ensures BoundedMembers(done + [m], depth) <==> !WithMember(before, m, item).1
    ensures !WithMember(before, m, item).1 ==> WithMember(before, m, item).0 == done + [m]
  {
    if m.key.Some? {
      TruncatedFits(m.key.value, MAX_KEY_BYTES);
    }
    hide Bounded, Truncated, DistinctKeys;
    KeysGrow(done, m);
    LastMember(done, m, depth);
  }

  lemma LastMember(done: seq<RawMember>, m: RawMember, depth: nat)
    ensures BoundedMembers(done + [m], depth) ==> BoundedMembers(done, depth) && ShortKey(m) && Bounded(m.value, depth)
  {
    hide Bounded, ShortKey;
    var after := done + [m];
    KeysGrow(done, m);
    if BoundedMembers(after, depth) {
      assert after[|done|] == m;
      forall i | 0 <= i < |done| ensures ShortKey(done[i]) && Bounded(done[i].value, depth) {
        assert after[i] == done[i];
      }
    }
  }

  lemma {:induction false} MembersExactly(members: seq<RawMember>, n: nat, depth: nat)
    requires n <= |members|
    ensures BoundedMembers(members[..n], depth) <==> !Members(members, n, depth).1
    ensures !Members(members, n, depth).1 ==> Members(members, n, depth).0 == members[..n]
    decreases members, n
  {
    if n > 0 {
      MembersExactly(members, n - 1, depth);
      MemberExactly(members[n - 1], depth);
      hide Bounded, MemberValue, WithMember, BoundedMembers;
      WithMemberExactly(Members(members, n - 1, depth), members[n - 1], MemberValue(members[n - 1], depth), depth, members[..n - 1]);
      assert members[..n] == members[..n - 1] + [members[n - 1]];
    }
  }

  lemma NormalizingTwiceIsOnce(v: Raw, depth: nat)
    ensures Normalized(Normalized(v, depth).0, depth) == (Normalized(v, depth).0, false)
  {
    NormalizedIsBounded(v, depth);
    NormalizedExactly(Normalized(v, depth).0, depth);
  }
}
