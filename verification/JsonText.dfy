/** The text of a JSON value determines the value. */
module JsonText {
  import opened Common
  import opened Json

  predicate NumberChar(c: char) {
    '0' <= c <= '9' || c in {'-', '+', '.', 'e', 'E'}
  }

  predicate NumberText(s: string) {
    s != [] && forall i | 0 <= i < |s| :: NumberChar(s[i])
  }

  /** As floats are written: with a fraction or an exponent, unlike any integer. */
  predicate FloatText(s: string) {
    NumberText(s) && exists i :: 0 <= i < |s| && s[i] in {'.', 'e', 'E'}
  }

  predicate Proper(j: Json) {
    match j
    case Float(text) => FloatText(text)
    case Arr(items) => forall i | i in items :: Proper(i)
    case Obj(members) => forall m | m in members :: Proper(m.value)
    case _ => true
  }

  /** What can follow a value. */
  predicate Ends(s: string) {
    s == "" || s[0] in {',', ']', '}'}
  }

  // ---------- cutting texts ----------

  lemma DropHead(head: string, u: string, v: string)
    requires head + u == head + v
    ensures u == v
  {
    assert (head + u)[|head|..] == u && (head + v)[|head|..] == v;
  }

  lemma SameLengthHeads(u: string, s: string, v: string, t: string)
    requires u + s == v + t && |u| == |v|
    ensures u == v && s == t
  {
    assert u == (u + s)[..|u|] && v == (v + t)[..|u|];
    DropHead(u, s, t);
  }

  lemma NotShorter(u: string, s: string, v: string, t: string)
    requires u + s == v + t && Ends(s)
    ensures |u| < |v| ==> !NumberText(v)
  {
    assert |u + s| == |v + t|;
    if |u| < |v| {
      assert (u + s)[|u|] == s[0] && (v + t)[|u|] == v[|u|];
      assert !NumberChar(v[|u|]);
    }
  }

  /** A number is cut where the first other character stands. */
  lemma NumberCut(u: string, s: string, v: string, t: string)
    requires u + s == v + t && NumberText(u) && NumberText(v) && Ends(s) && Ends(t)
    ensures u == v && s == t
  {
    NotShorter(u, s, v, t);
    NotShorter(v, t, u, s);
    SameLengthHeads(u, s, v, t);
  }

  // ---------- numbers ----------

  lemma DigitValue(n: nat)
    requires n < 16
    ensures Digit(n) as int == if n < 10 then 48 + n else 87 + n
  {
    if n < 4 {
      assert n == 0 || n == 1 || n == 2 || n == 3;
    } else if n < 8 {
      assert n == 4 || n == 5 || n == 6 || n == 7;
    } else if n < 12 {
      assert n == 8 || n == 9 || n == 10 || n == 11;
    } else {
      assert n == 12 || n == 13 || n == 14 || n == 15;
    }
  }

  predicate Digits(s: string) {
    s != [] && forall i | 0 <= i < |s| :: '0' <= s[i] <= '9'
  }

  lemma {:induction false} DecimalIsDigits(n: nat)
    ensures Digits(Decimal(n)) && (n >= 10 <==> |Decimal(n)| > 1)
  {
    DigitValue(n % 10);
    if n >= 10 {
      DecimalIsDigits(n / 10);
    }
  }

  lemma {:induction false} DecimalIsInjective(n: nat, m: nat)
    requires Decimal(n) == Decimal(m)
    ensures n == m
  {
    DecimalIsDigits(n);
    DecimalIsDigits(m);
    DigitValue(n % 10);
    DigitValue(m % 10);
    if n >= 10 {
      hide Digit, Digits;
      SameLengthHeads(Decimal(n / 10), [Digit(n % 10)], Decimal(m / 10), [Digit(m % 10)]);
      DecimalIsInjective(n / 10, m / 10);
    }
  }

  lemma IntIsNumber(n: int)
    ensures NumberText(Render(Int(n))) && !FloatText(Render(Int(n)))
    ensures n >= 0 ==> Digits(Render(Int(n)))
    ensures n < 0 ==> Render(Int(n))[0] == '-' && Render(Int(n))[1..] == Decimal(-n)
  {
    DecimalIsDigits(if n < 0 then -n else n);
  }

  lemma IntIsInjective(n: int, m: int)
    requires Render(Int(n)) == Render(Int(m))
    ensures n == m
  {
    IntIsNumber(n);
    IntIsNumber(m);
    if n >= 0 && m >= 0 {
      DecimalIsInjective(n, m);
    } else if n < 0 && m < 0 {
      DecimalIsInjective(-n, -m);
    }
  }

  // ---------- strings ----------

  lemma Hex4IsInjective(n: nat, m: nat)
    requires n < 0x1_0000 && m < 0x1_0000 && Hex4(n) == Hex4(m)
    ensures n == m
  {
    SameDigit(n / 4096 % 16, m / 4096 % 16, Hex4(n)[0], Hex4(m)[0]);
    SameDigit(n / 256 % 16, m / 256 % 16, Hex4(n)[1], Hex4(m)[1]);
    SameDigit(n / 16 % 16, m / 16 % 16, Hex4(n)[2], Hex4(m)[2]);
    SameDigit(n % 16, m % 16, Hex4(n)[3], Hex4(m)[3]);
    hide Hex4, Digit;
    HexSum(n);
    HexSum(m);
  }

  lemma SameDigit(a: nat, b: nat, x: char, y: char)
    requires a < 16 && b < 16 && x == Digit(a) && y == Digit(b) && x == y
    ensures a == b
  {
    DigitValue(a);
    DigitValue(b);
    hide Digit;
  }

  lemma HexSum(n: nat)
    requires n < 0x1_0000
    ensures n == n / 4096 % 16 * 4096 + n / 256 % 16 * 256 + n / 16 % 16 * 16 + n % 16
  {
  }

  datatype Form = Plain | Short | Unit | Pair

  function FormOf(c: char): Form {
    if c in {'"', '\\', '\n', '\r', '\t'} || c as int == 8 || c as int == 12 then Short
    else if 32 <= c as int < 127 then Plain
    else if c as int < 0x1_0000 then Unit
    else Pair
  }

  function HighHalf(c: char): nat {
    if c as int >= 0x1_0000 then 0xD800 + (c as int - 0x1_0000) / 1024 else 0
  }

  function LowHalf(c: char): nat {
    0xDC00 + c as int % 1024
  }

  /** The form of an escape shows in its first two characters, and in the range of its
      first number. */
  lemma EscapeForm(c: char)
    ensures FormOf(c).Plain? ==> Escape(c) == [c] && c != '\\' && c != '"'
    ensures FormOf(c).Short? ==> |Escape(c)| == 2 && Escape(c)[0] == '\\' && Escape(c)[1] in {'"', '\\', 'n', 'r', 't', 'b', 'f'}
    ensures FormOf(c).Unit? ==> Escape(c) == "\\u" + Hex4(c as int)
    ensures FormOf(c).Pair? ==> Escape(c) == "\\u" + Hex4(HighHalf(c)) + "\\u" + Hex4(LowHalf(c))
    ensures Escape(c) != [] && Escape(c)[0] != '"'
  {
    hide Hex4;
  }

  lemma ShortIsInjective(c: char, d: char)
    requires FormOf(c).Short? && FormOf(d).Short? && Escape(c) == Escape(d)
    ensures c == d
  {
  }

  lemma Halves(c: char, d: char)
    requires FormOf(c).Pair? && FormOf(d).Pair? && HighHalf(c) == HighHalf(d) && LowHalf(c) == LowHalf(d)
    ensures c == d
  {
    assert c as int - 0x1_0000 == (c as int - 0x1_0000) / 1024 * 1024 + (c as int - 0x1_0000) % 1024;
    assert (c as int - 0x1_0000) % 1024 == c as int % 1024 && (d as int - 0x1_0000) % 1024 == d as int % 1024;
  }

  /** A character's escape followed by anything shows the character. */
  lemma EscapeCut(c: char, u: string, d: char, v: string)
    requires Escape(c) + u == Escape(d) + v
    ensures c == d && u == v
  {
    EscapeForm(c);
    EscapeForm(d);
    var text := Escape(c) + u;
    assert text[0] == Escape(c)[0] == Escape(d)[0];
    if !FormOf(c).Plain? && !FormOf(d).Plain? {
      assert text[1] == Escape(c)[1] == Escape(d)[1];
    }
    assert FormOf(c).Plain? <==> FormOf(d).Plain?;
    assert FormOf(c).Short? <==> FormOf(d).Short?;
    if FormOf(c).Plain? || FormOf(c).Short? {
      SameLengthHeads(Escape(c), u, Escape(d), v);
      if FormOf(c).Short? {
        ShortIsInjective(c, d);
      }
    } else {
      NumberedCut(c, u, d, v);
    }
  }

  /** The first number of a numbered escape. */
  function FirstNumber(c: char): nat {
    if FormOf(c).Pair? then HighHalf(c) else c as int
  }

  lemma FirstNumberMeans(c: char)
    requires FormOf(c).Unit? || FormOf(c).Pair?
    ensures FirstNumber(c) < 0x1_0000 && (FormOf(c).Pair? <==> 0xD800 <= FirstNumber(c) < 0xDC00)
    ensures |Escape(c)| >= 6 && Escape(c)[2..6] == Hex4(FirstNumber(c))
    ensures FormOf(c).Pair? ==> |Escape(c)| == 12 && Escape(c)[8..] == Hex4(LowHalf(c))
    ensures FormOf(c).Unit? ==> |Escape(c)| == 6
  {
    EscapeForm(c);
    hide Hex4, Escape;
  }

  lemma NumberedCut(c: char, u: string, d: char, v: string)
    requires Escape(c) + u == Escape(d) + v
    requires FormOf(c).Unit? || FormOf(c).Pair?
    requires FormOf(d).Unit? || FormOf(d).Pair?
    ensures c == d && u == v
  {
    FirstNumberMeans(c);
    FirstNumberMeans(d);
    hide Escape, Hex4, FormOf, HighHalf, LowHalf;
    assert Escape(c)[2..6] == (Escape(c) + u)[2..6] && Escape(d)[2..6] == (Escape(d) + v)[2..6];
    Hex4IsInjective(FirstNumber(c), FirstNumber(d));
    SameLengthHeads(Escape(c), u, Escape(d), v);
    SameNumbers(c, d);
  }

  lemma SameNumbers(c: char, d: char)
    requires FirstNumber(c) == FirstNumber(d) && Escape(c) == Escape(d)
    requires FormOf(c).Unit? || FormOf(c).Pair?
    requires FormOf(d).Unit? || FormOf(d).Pair?
    ensures c == d
  {
    FirstNumberMeans(c);
    FirstNumberMeans(d);
    if FormOf(c).Pair? {
      hide Escape, Hex4;
      Hex4IsInjective(LowHalf(c), LowHalf(d));
      Halves(c, d);
    }
  }

  lemma NoQuoteFirst(x: string, s: string)
    requires x != []
    ensures Escaped(x) + s != [] && (Escaped(x) + s)[0] != '"'
  {
    EscapeForm(x[0]);
    hide Escape;
    assert (Escaped(x) + s)[0] == Escape(x[0])[0];
  }

  lemma {:induction false} EscapedCut(x: string, s: string, y: string, t: string)
    requires Escaped(x) + ("\"" + s) == Escaped(y) + ("\"" + t)
    ensures x == y && s == t
    decreases |x|
  {
    if x == [] && y == [] {
      assert Escaped([]) + ("\"" + s) == "\"" + s && Escaped([]) + ("\"" + t) == "\"" + t;
      DropHead("\"", s, t);
    } else if x == [] {
      NoQuoteFirst(y, "\"" + t);
    } else if y == [] {
      NoQuoteFirst(x, "\"" + s);
    } else {
      hide Escape;
      Assoc(Escape(x[0]), Escaped(x[1..]), "\"" + s);
      Assoc(Escape(y[0]), Escaped(y[1..]), "\"" + t);
      EscapeCut(x[0], Escaped(x[1..]) + ("\"" + s), y[0], Escaped(y[1..]) + ("\"" + t));
      EscapedCut(x[1..], s, y[1..], t);
      assert x == [x[0]] + x[1..] && y == [y[0]] + y[1..];
    }
  }

  lemma QuotedCut(x: string, s: string, y: string, t: string)
    requires Quoted(x) + s == Quoted(y) + t
    ensures x == y && s == t
  {
    hide Escaped;
    assert Quoted(x) + s == "\"" + (Escaped(x) + ("\"" + s));
    assert Quoted(y) + t == "\"" + (Escaped(y) + ("\"" + t));
    DropHead("\"", Escaped(x) + ("\"" + s), Escaped(y) + ("\"" + t));
    EscapedCut(x, s, y, t);
  }

  // ---------- values ----------

  datatype Kind = Word | Number | Text | List | Table

  function KindOf(j: Json): Kind {
    match j
    case Null => Word
    case Bool(_) => Word
    case Int(_) => Number
    case Float(_) => Number
    case Str(_) => Text
    case Arr(_) => List
    case Obj(_) => Table
  }

  /** The first character of a value shows its kind. */
  lemma FirstChar(j: Json)
    requires Proper(j)
    ensures var text := Render(j);
            && text != []
            && (KindOf(j).Word? <==> text[0] in {'n', 't', 'f'})
            && (KindOf(j).Number? <==> NumberChar(text[0]))
            && (KindOf(j).Text? <==> text[0] == '"')
            && (KindOf(j).List? <==> text[0] == '[')
            && (KindOf(j).Table? <==> text[0] == '{')
  {
    hide RenderItems, RenderMembers, Escaped, Decimal;
    if j.Int? {
      IntIsNumber(j.n);
    }
  }

  lemma WordCut(a: Json, s: string, b: Json, t: string)
    requires KindOf(a).Word? && KindOf(b).Word? && Render(a) + s == Render(b) + t
    ensures a == b && s == t
  {
    assert (Render(a) + s)[0] == Render(a)[0] && (Render(b) + t)[0] == Render(b)[0];
    SameLengthHeads(Render(a), s, Render(b), t);
  }

  lemma NumbersCut(a: Json, s: string, b: Json, t: string)
    requires KindOf(a).Number? && KindOf(b).Number? && Proper(a) && Proper(b) && Ends(s) && Ends(t)
    requires Render(a) + s == Render(b) + t
    ensures a == b && s == t
  {
    if a.Int? {
      IntIsNumber(a.n);
    }
    if b.Int? {
      IntIsNumber(b.n);
    }
    hide Decimal;
    NumberCut(Render(a), s, Render(b), t);
    if a.Int? && b.Int? {
      IntIsInjective(a.n, b.n);
    }
  }

  /** What follows the first of n things in a list, when later is the text of the others. */
  function Rest(n: nat, later: string): string {
    if n <= 1 then "" else "," + later
  }

  lemma RestEnds(n: nat, later: string, close: char, s: string)
    requires close in {']', '}'}
    ensures Ends(Rest(n, later) + ([close] + s))
    ensures n > 1 ==> Rest(n, later) + ([close] + s) == "," + (later + ([close] + s))
    ensures n <= 1 ==> Rest(n, later) + ([close] + s) == [close] + s
  {
  }

  lemma SameRest(n: nat, x: string, s: string, m: nat, y: string, t: string, close: char)
    requires close in {']', '}'} && Rest(n, x) + ([close] + s) == Rest(m, y) + ([close] + t)
    ensures n > 1 <==> m > 1
    ensures if n > 1 then x + ([close] + s) == y + ([close] + t) else s == t
  {
    RestEnds(n, x, close, s);
    RestEnds(m, y, close, t);
    hide Rest;
    FirstOf(',', x + ([close] + s));
    FirstOf(',', y + ([close] + t));
    FirstOf(close, s);
    FirstOf(close, t);
    if n > 1 && m > 1 {
      DropHead(",", x + ([close] + s), y + ([close] + t));
    } else if n <= 1 && m <= 1 {
      DropHead([close], s, t);
    }
  }

  lemma FirstOf(c: char, s: string)
    ensures ([c] + s)[0] == c
  {
  }

  lemma ItemsSplit(items: seq<Json>, s: string)
    requires items != []
    ensures RenderItems(items) + ("]" + s)
            == Render(items[0]) + (Rest(|items|, RenderItems(items[1..])) + ("]" + s))
  {
    hide Render;
    var rest := Rest(|items|, RenderItems(items[1..]));
    assert RenderItems(items) == Render(items[0]) + rest;
    Assoc(Render(items[0]), rest, "]" + s);
  }

  lemma MembersSplit(members: seq<Member>, s: string)
    requires members != []
    ensures var m := members[0];
            RenderMembers(members) + ("}" + s)
            == Quoted(m.key) + (":" + (Render(m.value) + (Rest(|members|, RenderMembers(members[1..])) + ("}" + s))))
  {
    hide *;
    var rest := Rest(|members|, RenderMembers(members[1..]));
    FirstMember(members);
    Assoc(RenderMember(members[0]), rest, "}" + s);
    MemberText(members[0]);
    Regroup(Quoted(members[0].key), Render(members[0].value), rest + ("}" + s));
  }

  lemma FirstMember(members: seq<Member>)
    requires members != []
    ensures RenderMembers(members) == RenderMember(members[0]) + Rest(|members|, RenderMembers(members[1..]))
  {
    hide RenderMember;
    if |members| > 1 {
      Assoc(RenderMember(members[0]), ",", RenderMembers(members[1..]));
    }
  }

  lemma MemberText(m: Member)
    ensures RenderMember(m) == Quoted(m.key) + ":" + Render(m.value)
  {
    hide Quoted, Render;
  }

  lemma Regroup(key: string, value: string, tail: string)
    ensures key + ":" + value + tail == key + (":" + (value + tail))
  {
  }

  /** A value followed by what can follow one shows the value. */
  lemma {:induction false} ValueCut(a: Json, s: string, b: Json, t: string)
    requires Proper(a) && Proper(b) && Ends(s) && Ends(t) && Render(a) + s == Render(b) + t
    ensures a == b && s == t
    decreases a, 1
  {
    SameKind(a, s, b, t);
    if KindOf(a).Word? {
      WordCut(a, s, b, t);
    } else if KindOf(a).Number? {
      NumbersCut(a, s, b, t);
    } else if KindOf(a).Text? {
      hide Quoted;
      QuotedCut(a.s, s, b.s, t);
    } else if KindOf(a).List? {
      ListCut(a, s, b, t);
    } else {
      TableCut(a, s, b, t);
    }
  }

  lemma SameKind(a: Json, s: string, b: Json, t: string)
    requires Proper(a) && Proper(b) && Render(a) + s == Render(b) + t
    ensures KindOf(a) == KindOf(b)
  {
    FirstChar(a);
    FirstChar(b);
    hide Render;
    assert (Render(a) + s)[0] == Render(a)[0] && (Render(b) + t)[0] == Render(b)[0];
  }

  lemma {:induction false} ListCut(a: Json, s: string, b: Json, t: string)
    requires a.Arr? && b.Arr? && Proper(a) && Proper(b) && Render(a) + s == Render(b) + t
    ensures a == b && s == t
    decreases a, 0
  {
    hide RenderItems;
    Assoc3("[", RenderItems(a.items), "]", s);
    Assoc3("[", RenderItems(b.items), "]", t);
    DropHead("[", RenderItems(a.items) + ("]" + s), RenderItems(b.items) + ("]" + t));
    ItemsCut(a.items, s, b.items, t);
  }

  lemma {:induction false} TableCut(a: Json, s: string, b: Json, t: string)
    requires a.Obj? && b.Obj? && Proper(a) && Proper(b) && Render(a) + s == Render(b) + t
    ensures a == b && s == t
    decreases a, 0
  {
    hide RenderMembers;
    Assoc3("{", RenderMembers(a.members), "}", s);
    Assoc3("{", RenderMembers(b.members), "}", t);
    DropHead("{", RenderMembers(a.members) + ("}" + s), RenderMembers(b.members) + ("}" + t));
    MembersCut(a.members, s, b.members, t);
  }

  lemma Assoc3(x: string, y: string, z: string, s: string)
    ensures x + y + z + s == x + (y + (z + s))
  {
  }

  lemma ItemsStart(items: seq<Json>, s: string)
    requires items != [] && forall i | i in items :: Proper(i)
    ensures RenderItems(items) + ("]" + s) != [] && (RenderItems(items) + ("]" + s))[0] != ']'
  {
    FirstChar(items[0]);
    ItemsSplit(items, s);
    hide Render, RenderItems;
    assert (Render(items[0]) + (Rest(|items|, RenderItems(items[1..])) + ("]" + s)))[0] == Render(items[0])[0];
  }

  lemma MembersStart(members: seq<Member>, s: string)
    requires members != []
    ensures RenderMembers(members) + ("}" + s) != [] && (RenderMembers(members) + ("}" + s))[0] == '"'
  {
    MembersSplit(members, s);
    hide Render, RenderMembers, Escaped;
    assert Quoted(members[0].key)[0] == '"';
  }

  lemma {:induction false} ItemsCut(a: seq<Json>, s: string, b: seq<Json>, t: string)
    requires (forall i | i in a :: Proper(i)) && (forall i | i in b :: Proper(i))
    requires RenderItems(a) + ("]" + s) == RenderItems(b) + ("]" + t)
    ensures a == b && s == t
    decreases a, 2
  {
    if a == [] || b == [] {
      assert RenderItems([]) + ("]" + s) == "]" + s && RenderItems([]) + ("]" + t) == "]" + t;
      if a == [] && b == [] {
        DropHead("]", s, t);
      } else if a == [] {
        ItemsStart(b, t);
      } else {
        ItemsStart(a, s);
      }
    } else {
      hide Render, RenderItems, Proper, Rest;
      ItemsSplit(a, s);
      ItemsSplit(b, t);
      var x, y := RenderItems(a[1..]), RenderItems(b[1..]);
      RestEnds(|a|, x, ']', s);
      RestEnds(|b|, y, ']', t);
      ValueCut(a[0], Rest(|a|, x) + ("]" + s), b[0], Rest(|b|, y) + ("]" + t));
      SameRest(|a|, x, s, |b|, y, t, ']');
      assert a == [a[0]] + a[1..] && b == [b[0]] + b[1..];
      if |a| > 1 {
        ItemsCut(a[1..], s, b[1..], t);
      }
    }
  }

  lemma {:induction false} MembersCut(a: seq<Member>, s: string, b: seq<Member>, t: string)
    requires (forall m | m in a :: Proper(m.value)) && (forall m | m in b :: Proper(m.value))
    requires RenderMembers(a) + ("}" + s) == RenderMembers(b) + ("}" + t)
    ensures a == b && s == t
    decreases a, 2
  {
    if a == [] || b == [] {
      assert RenderMembers([]) + ("}" + s) == "}" + s && RenderMembers([]) + ("}" + t) == "}" + t;
      if a == [] && b == [] {
        DropHead("}", s, t);
      } else if a == [] {
        MembersStart(b, t);
      } else {
        MembersStart(a, s);
      }
    } else {
      hide Render, RenderMembers, Proper, Quoted, Rest;
      MembersSplit(a, s);
      MembersSplit(b, t);
      var x, y := RenderMembers(a[1..]), RenderMembers(b[1..]);
      var u, v := Rest(|a|, x) + ("}" + s), Rest(|b|, y) + ("}" + t);
      QuotedCut(a[0].key, ":" + (Render(a[0].value) + u), b[0].key, ":" + (Render(b[0].value) + v));
      DropHead(":", Render(a[0].value) + u, Render(b[0].value) + v);
      RestEnds(|a|, x, '}', s);
      RestEnds(|b|, y, '}', t);
      ValueCut(a[0].value, u, b[0].value, v);
      SameRest(|a|, x, s, |b|, y, t, '}');
      assert a == [a[0]] + a[1..] && b == [b[0]] + b[1..];
      if |a| > 1 {
        MembersCut(a[1..], s, b[1..], t);
      }
    }
  }

  /** Two values with one text are one value. */
  lemma TextDetermines(a: Json, b: Json)
    requires Proper(a) && Proper(b) && Render(a) == Render(b)
    ensures a == b
  {
    hide Render;
    assert Render(a) + "" == Render(b) + "";
    ValueCut(a, "", b, "");
  }
}
