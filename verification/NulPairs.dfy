/** Name and value pairs, each field ended by a zero byte. */
module NulPairs {
  import opened Common
  import opened Ordering
  import Utf8

  type Bytes = seq<byte>

  datatype Pair = Pair(name: string, value: string)

  // ---------- fields ended by a zero byte ----------

  /** The position of the first zero byte, or the length. */
  function FirstZero(b: Bytes): (r: nat)
    ensures r <= |b| && (forall k | 0 <= k < r :: b[k] != 0) && (r < |b| ==> b[r] == 0)
  {
    if b == [] || b[0] == 0 then 0 else 1 + FirstZero(b[1..])
  }

  /** `b.split(b"\0")`. */
  function Split(b: Bytes): seq<Bytes>
    decreases |b|
  {
    var i := FirstZero(b);
    if i == |b| then [b] else [b[..i]] + Split(b[i + 1..])
  }

  /** Each field followed by a zero byte. */
  function Ended(fields: seq<Bytes>): Bytes {
    if fields == [] then [] else fields[0] + [0] + Ended(fields[1..])
  }

  predicate NulFree(fields: seq<Bytes>) {
    forall i | 0 <= i < |fields| :: 0 !in fields[i]
  }

  lemma {:induction false} FirstZeroOf(a: Bytes, rest: Bytes)
    requires 0 !in a
    ensures FirstZero(a + [0] + rest) == |a|
  {
    if a != [] {
      assert (a + [0] + rest)[1..] == a[1..] + [0] + rest;
      assert a[0] in a && a[0] != 0;
      FirstZeroOf(a[1..], rest);
    }
  }

  /** Splitting ended fields gives the fields back. */
  lemma {:induction false} SplitEnded(fields: seq<Bytes>)
    requires fields != [] && NulFree(fields)
    ensures var b := Ended(fields); |b| > 0 && b[|b| - 1] == 0 && Split(b[..|b| - 1]) == fields
  {
    var b := Ended(fields);
    if |fields| == 1 {
      assert Ended(fields[1..]) == [];
      assert b[..|b| - 1] == fields[0];
      assert FirstZero(fields[0]) == |fields[0]|;
    } else {
      var rest := Ended(fields[1..]);
      SplitEnded(fields[1..]);
      assert b[..|b| - 1] == fields[0] + [0] + rest[..|rest| - 1];
      FirstZeroOf(fields[0], rest[..|rest| - 1]);
      assert b[..|b| - 1][|fields[0]| + 1..] == rest[..|rest| - 1];
      assert b[..|b| - 1][..|fields[0]|] == fields[0];
    }
  }

  lemma EndedStep(field: Bytes, fields: seq<Bytes>)
    ensures Ended([field] + fields) == field + [0] + Ended(fields)
    ensures 0 !in field && NulFree(fields) ==> NulFree([field] + fields)
  {
    assert ([field] + fields)[1..] == fields;
  }

  lemma CutAt(b: Bytes, i: nat)
    requires i < |b| && b[i] == 0
    ensures b == b[..i] + [0] + b[i + 1..]
  {
  }

  lemma Regroup(a: Bytes, b: Bytes)
    ensures a + [0] + (b + [0]) == (a + [0] + b) + [0]
  {
  }

  /** The split fields, ended again, are the bytes, and hold no zero byte. */
  lemma {:induction false} EndedSplit(b: Bytes)
    ensures Split(b) != [] && Ended(Split(b)) == b + [0] && NulFree(Split(b))
    decreases |b|
  {
    var i := FirstZero(b);
    if i == |b| {
      assert b[..i] == b;
      assert Ended([b]) == b + [0];
    } else {
      CutAt(b, i);
      assert Split(b) == [b[..i]] + Split(b[i + 1..]);
      hide Split, Ended, FirstZero, NulFree;
      var field, rest := b[..i], b[i + 1..];
      EndedSplit(rest);
      EndedStep(field, Split(rest));
      Regroup(field, rest);
    }
  }

  // ---------- pairs ----------

  function PairFields(ps: seq<Pair>): seq<Bytes> {
    if ps == [] then [] else [Utf8.Encode(ps[0].name), Utf8.Encode(ps[0].value)] + PairFields(ps[1..])
  }

  /** The printed pairs. */
  function EncodePairs(ps: seq<Pair>): Bytes {
    Ended(PairFields(ps))
  }

  /** The printed length, counted without printing. */
  function Size(ps: seq<Pair>): nat {
    if ps == [] then 0 else |Utf8.Encode(ps[0].name)| + |Utf8.Encode(ps[0].value)| + 2 + Size(ps[1..])
  }

  lemma {:induction false} SizeIsLength(ps: seq<Pair>)
    ensures |EncodePairs(ps)| == Size(ps)
  {
    if ps != [] {
      SizeIsLength(ps[1..]);
      PairFieldsStep(ps);
    }
  }

  lemma PairFieldsStep(ps: seq<Pair>)
    requires ps != []
    ensures var n, v := Utf8.Encode(ps[0].name), Utf8.Encode(ps[0].value);
            EncodePairs(ps) == n + [0] + (v + [0] + EncodePairs(ps[1..]))
  {
    var f := PairFields(ps);
    var g := f[1..];
    assert g[1..] == PairFields(ps[1..]);
    assert Ended(g) == f[1] + [0] + Ended(g[1..]);
    assert Ended(f) == f[0] + [0] + Ended(g);
  }

  /** Fields that are printable: no zero byte in either, and an ASCII name. */
  predicate Printable(ps: seq<Pair>) {
    forall i | 0 <= i < |ps| :: Utf8.Ascii(ps[i].name) && '\0' !in ps[i].name && '\0' !in ps[i].value
  }

  /** Decode the fields two by two: the name as ASCII, the value as UTF-8. */
  function PairsOf(fields: seq<Bytes>): Option<seq<Pair>> {
    if fields == [] then Some([])
    else if |fields| == 1 then None
    else
      var n, v, rest := Utf8.Decode(fields[0]), Utf8.Decode(fields[1]), PairsOf(fields[2..]);
      if !Utf8.AsciiBytes(fields[0]) || n.None? || v.None? || rest.None? then None
      else Some([Pair(n.value, v.value)] + rest.value)
  }

  /** What a payload body prints, if it is a list of printed pairs. */
  function Parse(b: Bytes): Option<seq<Pair>> {
    if b == [] then Some([])
    else if b[|b| - 1] != 0 then None
    else PairsOf(Split(b[..|b| - 1]))
  }

  lemma {:induction false} PairsOfFields(ps: seq<Pair>)
    requires Printable(ps)
    ensures PairsOf(PairFields(ps)) == Some(ps)
    ensures NulFree(PairFields(ps))
  {
    if ps != [] {
      PairsOfFields(ps[1..]);
      Utf8.DecodeEncode(ps[0].name);
      Utf8.DecodeEncode(ps[0].value);
      Utf8.AsciiEncode(ps[0].name);
      Utf8.ZeroBytes(ps[0].name);
      Utf8.ZeroBytes(ps[0].value);
      assert PairFields(ps)[2..] == PairFields(ps[1..]);
      assert ps == [ps[0]] + ps[1..];
    }
  }

  lemma {:induction false} FieldsOfPairs(fields: seq<Bytes>)
    requires PairsOf(fields).Some?
    ensures PairFields(PairsOf(fields).value) == fields
    decreases |fields|
  {
    if fields != [] {
      FieldsOfPairs(fields[2..]);
      Utf8.EncodeDecode(fields[0]);
      Utf8.EncodeDecode(fields[1]);
      assert fields == [fields[0], fields[1]] + fields[2..];
      assert PairsOf(fields).value[1..] == PairsOf(fields[2..]).value;
    }
  }

  /** Printed pairs parse back, whatever their order. */
  lemma ParseEncode(ps: seq<Pair>)
    requires Printable(ps)
    ensures Parse(EncodePairs(ps)) == Some(ps)
  {
    if ps != [] {
      PairsOfFields(ps);
      SplitEnded(PairFields(ps));
    }
  }

  /** Whatever parses is exactly what its pairs print. */
  lemma EncodeParse(b: Bytes)
    requires Parse(b).Some?
    ensures EncodePairs(Parse(b).value) == b
  {
    if b != [] {
      EndedSplit(b[..|b| - 1]);
      assert b[..|b| - 1] + [0] == b;
      FieldsOfPairs(Split(b[..|b| - 1]));
    }
  }
}
