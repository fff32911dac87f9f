/** Canonical JSON text: ASCII only, no spaces, keys in the order given. */
module Json {
  import opened Common

  /** An object lists its members in sorted key order; a float carries its own text. */
  datatype Json =
    | Null
    | Bool(b: bool)
    | Int(n: int)
    | Float(text: string)
    | Str(s: string)
    | Arr(items: seq<Json>)
    | Obj(members: seq<Member>)

  datatype Member = Member(key: string, value: Json)

  function Digit(n: nat): char
    requires n < 16
  {
    "0123456789abcdef"[n]
  }

  function Decimal(n: nat): string {
    if n < 10 then [Digit(n)] else Decimal(n / 10) + [Digit(n % 10)]
  }

  function Hex4(n: nat): (r: string)
    ensures |r| == 4
  {
    [Digit(n / 4096 % 16), Digit(n / 256 % 16), Digit(n / 16 % 16), Digit(n % 16)]
  }

  /** A character of a string: short escapes, `\u` escapes, and a surrogate pair above the
      basic plane. */
  function Escape(c: char): string {
    if c == '"' then "\\\""
    else if c == '\\' then "\\\\"
    else if c == '\n' then "\\n"
    else if c == '\r' then "\\r"
    else if c == '\t' then "\\t"
    else if c as int == 8 then "\\b"
    else if c as int == 12 then "\\f"
    else if 32 <= c as int < 127 then [c]
    else if c as int < 0x1_0000 then "\\u" + Hex4(c as int)
    else "\\u" + Hex4(0xD800 + (c as int - 0x1_0000) / 1024) + "\\u" + Hex4(0xDC00 + c as int % 1024)
  }

  function Escaped(s: string): string {
    if s == [] then [] else Escape(s[0]) + Escaped(s[1..])
  }

  function Quoted(s: string): string {
    "\"" + Escaped(s) + "\""
  }

  function Render(j: Json): string {
    match j
    case Null => "null"
    case Bool(b) => if b then "true" else "false"
    case Int(n) => if n < 0 then "-" + Decimal(-n) else Decimal(n)
    case Float(text) => text
    case Str(s) => Quoted(s)
    case Arr(items) => "[" + RenderItems(items) + "]"
    case Obj(members) => "{" + RenderMembers(members) + "}"
  }

  function RenderItems(items: seq<Json>): string {
    if items == [] then ""
    else if |items| == 1 then Render(items[0])
    else Render(items[0]) + "," + RenderItems(items[1..])
  }

  function RenderMembers(members: seq<Member>): string {
    if members == [] then ""
    else if |members| == 1 then RenderMember(members[0])
    else RenderMember(members[0]) + "," + RenderMembers(members[1..])
  }

  function RenderMember(m: Member): string {
    Quoted(m.key) + ":" + Render(m.value)
  }

  /** Replacing the value of one member changes the text length by the difference of
      the two values' lengths. */
  lemma {:induction false} ReplaceChangesLength(members: seq<Member>, i: nat, v: Json)
    requires i < |members|
    ensures |Render(Obj(members[i := Member(members[i].key, v)]))| + |Render(members[i].value)|
            == |Render(Obj(members))| + |Render(v)|
  {
    ReplaceInMembers(members, i, v);
  }

  lemma {:induction false} ReplaceInMembers(members: seq<Member>, i: nat, v: Json)
    requires i < |members|
    ensures |RenderMembers(members[i := Member(members[i].key, v)])| + |Render(members[i].value)|
            == |RenderMembers(members)| + |Render(v)|
  {
    var after := members[i := Member(members[i].key, v)];
    if i == 0 {
      assert after[1..] == members[1..];
    } else {
      assert after[1..] == members[1..][i - 1 := Member(members[i].key, v)];
      ReplaceInMembers(members[1..], i - 1, v);
    }
  }

  lemma DecimalLength(n: nat)
    requires n < 1_000_000
    ensures |Decimal(n)| == if n < 10 then 1 else if n < 100 then 2 else if n < 1000 then 3
                            else if n < 10_000 then 4 else if n < 100_000 then 5 else 6
  {
    if n >= 10 {
      DecimalLength(n / 10);
    }
  }

  /** Printable ASCII without quotes or backslashes. */
  predicate Unescaped(s: string) {
    forall i | 0 <= i < |s| :: 32 <= s[i] as int < 127 && s[i] != '"' && s[i] != '\\'
  }

  /** Such text is written as it is. */
  lemma {:induction false} UnescapedIsKept(s: string)
    requires Unescaped(s)
    ensures Escaped(s) == s
  {
    if s != [] {
      UnescapedIsKept(s[1..]);
    }
  }

  predicate Ascii(s: string) {
    forall c | c in s :: c as int < 128
  }

  /** Every float text in j is ASCII. */
  predicate AsciiFloats(j: Json) {
    match j
    case Float(text) => Ascii(text)
    case Arr(items) => forall i | i in items :: AsciiFloats(i)
    case Obj(members) => forall m | m in members :: AsciiFloats(m.value)
    case _ => true
  }

  lemma {:induction false} DecimalIsAscii(n: nat)
    ensures Ascii(Decimal(n))
  {
    if n >= 10 {
      DecimalIsAscii(n / 10);
    }
  }

  lemma HexIsAscii(n: nat)
    ensures Ascii(Hex4(n))
  {
  }

  lemma EscapeIsAscii(c: char)
    ensures Ascii(Escape(c))
  {
    HexIsAscii(c as int);
    if c as int >= 0x1_0000 {
      HexIsAscii(0xD800 + (c as int - 0x1_0000) / 1024);
      HexIsAscii(0xDC00 + c as int % 1024);
    }
    hide Hex4, Ascii;
    AsciiConcat(c);
  }

  lemma AsciiConcat(c: char)
    requires Ascii(Hex4(c as int))
    requires c as int >= 0x1_0000 ==> Ascii(Hex4(0xD800 + (c as int - 0x1_0000) / 1024)) && Ascii(Hex4(0xDC00 + c as int % 1024))
    ensures Ascii(Escape(c))
  {
    hide Hex4;
  }

  lemma {:induction false} EscapedIsAscii(s: string)
    ensures Ascii(Escaped(s))
  {
    if s != [] {
      EscapeIsAscii(s[0]);
      hide Escape;
      EscapedIsAscii(s[1..]);
    }
  }

  /** The text is ASCII, so its length in characters is its length in bytes. */
  lemma {:induction false} RenderIsAscii(j: Json)
    requires AsciiFloats(j)
    ensures Ascii(Render(j))
  {
    hide Escaped, Decimal;
    match j
    case Int(n) => DecimalIsAscii(if n < 0 then -n else n);
    case Str(s) => EscapedIsAscii(s);
    case Arr(items) => ItemsAreAscii(items);
    case Obj(members) => MembersAreAscii(members);
    case _ =>
  }

  lemma {:induction false} ItemsAreAscii(items: seq<Json>)
    requires forall i | i in items :: AsciiFloats(i)
    ensures Ascii(RenderItems(items))
  {
    hide Render;
    if items != [] {
      RenderIsAscii(items[0]);
      ItemsAreAscii(items[1..]);
    }
  }

  lemma {:induction false} MembersAreAscii(members: seq<Member>)
    requires forall m | m in members :: AsciiFloats(m.value)
    ensures Ascii(RenderMembers(members))
  {
    hide Render, Escaped;
    if members != [] {
      EscapedIsAscii(members[0].key);
      RenderIsAscii(members[0].value);
      MembersAreAscii(members[1..]);
    }
  }
}
