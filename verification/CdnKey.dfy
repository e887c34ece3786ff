/**
 The key the edge node caches a response under: region, bucket, file key and the
 JSON text of the transform parameters, joined with colons.  The point of the
 module is that the key tells the file and the parameters apart, whatever braces,
 quotes and colons the file key and the text parameters hold.
 */
module CdnKey {
  import opened Wrappers
  import Strings

  /** The five-field object the controller builds; None is `undefined`. JSON prints NaN as null. */
  datatype Transforms = Transforms(w: Option<Number>, h: Option<Number>, fmt: Option<string>,
                                   q: Option<Number>, fit: Option<string>)

  const NO_TRANSFORMS := Transforms(None, None, None, None, None)

  // ---------------------------------------------------------------- JSON text

  datatype Scalar = JNum(number: Number) | JStr(text: string)

  /** A member of an object: its name and value. */
  datatype Member = Member(name: string, value: Scalar)

  function NatText(n: nat): string {
    if n < 10 then [('0' as int + n) as char] else NatText(n / 10) + [('0' as int + n % 10) as char]
  }

  function NumberText(x: Number): string {
    match x
    case NaN => "null"
    case Num(n) => if n < 0 then "-" + NatText(-n) else NatText(n)
  }

  function HexDigit(v: int): char
    requires 0 <= v < 16
  {
    if v < 10 then ('0' as int + v) as char else ('a' as int + v - 10) as char
  }

  /** One character inside a JSON string. */
  function Escape(c: char): string {
    if c == '"' then ['\\', '"']
    else if c == '\\' then ['\\', '\\']
    else if c as int == 8 then ['\\', 'b']
    else if c as int == 9 then ['\\', 't']
    else if c as int == 10 then ['\\', 'n']
    else if c as int == 12 then ['\\', 'f']
    else if c as int == 13 then ['\\', 'r']
    else if c as int < 32 then ['\\', 'u', '0', '0', HexDigit(c as int / 16), HexDigit(c as int % 16)]
    else [c]
  }

  function EscapeAll(s: string): string {
    if s == [] then [] else Escape(s[0]) + EscapeAll(s[1..])
  }

  function Quote(s: string): string { ['"'] + EscapeAll(s) + ['"'] }

  function ScalarText(v: Scalar): string {
    match v
    case JNum(x) => NumberText(x)
    case JStr(s) => Quote(s)
  }

  function MemberText(m: Member): string { ['"'] + (m.name + ['"'] + ([':'] + ScalarText(m.value))) }

  /** The members after the first, and the closing brace. */
  function Rest(ms: seq<Member>): string {
    if ms == [] then ['}'] else [','] + (MemberText(ms[0]) + Rest(ms[1..]))
  }

  function ObjectText(ms: seq<Member>): string {
    if ms == [] then ['{', '}'] else ['{'] + (MemberText(ms[0]) + Rest(ms[1..]))
  }

  function NumberMember(name: string, x: Option<Number>): seq<Member> {
    if x.Some? then [Member(name, JNum(x.value))] else []
  }

  function TextMember(name: string, s: Option<string>): seq<Member> {
    if s.Some? then [Member(name, JStr(s.value))] else []
  }

  /** The defined fields, in the order the controller writes them. */
  function Members(t: Transforms): seq<Member> {
    NumberMember("w", t.w) + (NumberMember("h", t.h) + (TextMember("fmt", t.fmt) +
      (NumberMember("q", t.q) + TextMember("fit", t.fit))))
  }

  function Stringify(t: Transforms): string { ObjectText(Members(t)) }

  function TransformKey(t: Option<Transforms>): string {
    if t.Some? then Stringify(t.value) else "{}"
  }

  function CacheKey(region: string, bucket: string, key: string, t: Option<Transforms>): string {
    "cdn:" + region + [':'] + (bucket + [':'] + (key + [':'] + TransformKey(t)))
  }

  // ------------------------------------------- values can be read back

  predicate Stop(c: char) { c == ',' || c == '}' }

  predicate NoStops(s: string) { forall i | 0 <= i < |s| :: !Stop(s[i]) }

  /** Text without stops, followed by a stop, ends where the first stop is. */
  lemma {:induction false} FirstStop(a: string, x: string, b: string, y: string)
    requires NoStops(a) && NoStops(b)
    requires x != [] && Stop(x[0]) && y != [] && Stop(y[0])
    requires a + x == b + y
    ensures a == b && x == y
  {
    var s := a + x;
    assert s[0] == (if a == [] then x[0] else a[0]) == (if b == [] then y[0] else b[0]);
    if a == [] || b == [] {
      assert s == x == y;
    } else {
      assert s[1..] == a[1..] + x == b[1..] + y;
      FirstStop(a[1..], x, b[1..], y);
      assert a == [a[0]] + a[1..] && b == [b[0]] + b[1..];
    }
  }

  lemma EscapePrefix(c: char, x: string, d: char, y: string)
    requires Escape(c) + x == Escape(d) + y
    ensures c == d && x == y
  {
    var s := Escape(c) + x;
    assert s == Escape(d) + y;
    assert forall i | 0 <= i < |Escape(c)| :: s[i] == Escape(c)[i];
    assert forall i | 0 <= i < |Escape(d)| :: s[i] == Escape(d)[i];
    assert c == d by {
      assert s[0] == Escape(c)[0] == Escape(d)[0];
      if s[0] == '\\' {
        assert s[1] == Escape(c)[1] == Escape(d)[1];
        if s[1] == 'u' {
          assert s[4] == Escape(c)[4] == Escape(d)[4];
          assert s[5] == Escape(c)[5] == Escape(d)[5];
        }
      }
    }
    assert x == s[|Escape(c)|..] == y;
  }

  lemma {:induction false} QuotedPrefix(a: string, x: string, b: string, y: string)
    requires EscapeAll(a) + (['"'] + x) == EscapeAll(b) + (['"'] + y)
    ensures a == b && x == y
    decreases |a|
  {
    FirstOfQuoted(a, x);
    FirstOfQuoted(b, y);
    if a == [] {
      assert b == [];
      assert (EscapeAll(a) + (['"'] + x))[1..] == x && (EscapeAll(b) + (['"'] + y))[1..] == y;
    } else {
      UnrollEscape(a, ['"'] + x);
      UnrollEscape(b, ['"'] + y);
      EscapePrefix(a[0], EscapeAll(a[1..]) + (['"'] + x), b[0], EscapeAll(b[1..]) + (['"'] + y));
      QuotedPrefix(a[1..], x, b[1..], y);
      assert a == [a[0]] + a[1..] && b == [b[0]] + b[1..];
    }
  }

  lemma UnrollEscape(a: string, x: string)
    requires a != []
    ensures EscapeAll(a) + x == Escape(a[0]) + (EscapeAll(a[1..]) + x)
  {
  }

  /** Only the end of the text shows a bare quote first. */
  lemma FirstOfQuoted(a: string, x: string)
    ensures (EscapeAll(a) + (['"'] + x))[0] == '"' <==> a == []
  {
    if a != [] { assert EscapeAll(a)[0] == Escape(a[0])[0]; }
  }

  predicate Numeral(s: string) { s != [] && forall i | 0 <= i < |s| :: '0' <= s[i] <= '9' }

  lemma {:induction false} NatTextNumeral(n: nat)
    ensures Numeral(NatText(n)) && (|NatText(n)| == 1 <==> n < 10)
  {
    if n >= 10 { NatTextNumeral(n / 10); }
  }

  lemma {:induction false} NatTextInjective(m: nat, n: nat)
    requires NatText(m) == NatText(n)
    ensures m == n
  {
    NatTextNumeral(m);
    NatTextNumeral(n);
    var s := NatText(m);
    assert s[|s| - 1] == ('0' as int + m % 10) as char == ('0' as int + n % 10) as char;
    if m >= 10 {
      assert NatText(m / 10) == s[..|s| - 1] == NatText(n / 10);
      NatTextInjective(m / 10, n / 10);
    }
  }

  lemma NumberTextShape(x: Number)
    ensures var s := NumberText(x);
            s != [] && NoStops(s) && '{' !in s && s[0] != '"' &&
            (s[0] == 'n' <==> x.NaN?) && (s[0] == '-' <==> x.Num? && x.n < 0)
  {
    if x.Num? { NatTextNumeral(if x.n < 0 then -x.n else x.n); }
  }

  lemma NumberTextInjective(x: Number, y: Number)
    requires NumberText(x) == NumberText(y)
    ensures x == y
  {
    NumberTextShape(x);
    NumberTextShape(y);
    if x.Num? {
      if x.n < 0 {
        assert NumberText(x)[1..] == NatText(-x.n) && NumberText(y)[1..] == NatText(-y.n);
        NatTextInjective(-x.n, -y.n);
      } else {
        NatTextInjective(x.n, y.n);
      }
    }
  }

  lemma ScalarShape(v: Scalar)
    ensures ScalarText(v) != [] && (ScalarText(v)[0] == '"' <==> v.JStr?)
  {
    if v.JNum? { NumberTextShape(v.number); }
  }

  /** A value's text followed by ',' or '}' gives back the value and what follows. */
  lemma ScalarPrefix(v: Scalar, x: string, w: Scalar, y: string)
    requires x != [] && Stop(x[0]) && y != [] && Stop(y[0])
    requires ScalarText(v) + x == ScalarText(w) + y
    ensures v == w && x == y
  {
    ScalarShape(v);
    ScalarShape(w);
    assert (ScalarText(v) + x)[0] == ScalarText(v)[0];
    assert (ScalarText(w) + y)[0] == ScalarText(w)[0];
    if v.JNum? {
      NumberTextShape(v.number);
      NumberTextShape(w.number);
      FirstStop(NumberText(v.number), x, NumberText(w.number), y);
      NumberTextInjective(v.number, w.number);
    } else {
      QuotePrefix(v.text, x, w.text, y);
    }
  }

  lemma QuoteSplit(a: string, x: string)
    ensures Quote(a) + x == ['"'] + (EscapeAll(a) + (['"'] + x))
  {
  }

  lemma QuotePrefix(a: string, x: string, b: string, y: string)
    requires Quote(a) + x == Quote(b) + y
    ensures a == b && x == y
  {
    QuoteSplit(a, x);
    QuoteSplit(b, y);
    Strings.Cancel(['"'], EscapeAll(a) + (['"'] + x), EscapeAll(b) + (['"'] + y));
    QuotedPrefix(a, x, b, y);
  }

  /** Names the printer is used with hold no quote and no brace. */
  predicate PlainName(s: string) { '"' !in s && '{' !in s }

  predicate PlainNames(ms: seq<Member>) { forall i | 0 <= i < |ms| :: PlainName(ms[i].name) }

  lemma MemberSplit(m: Member, x: string)
    ensures MemberText(m) + x == ['"'] + (m.name + ['"'] + ([':'] + (ScalarText(m.value) + x)))
  {
    Reassociate(m.name, ScalarText(m.value), x);
  }

  lemma Reassociate(n: string, v: string, x: string)
    ensures ['"'] + (n + ['"'] + ([':'] + v)) + x == ['"'] + (n + ['"'] + ([':'] + (v + x)))
  {
  }

  lemma MemberPrefix(m: Member, x: string, n: Member, y: string)
    requires PlainName(m.name) && PlainName(n.name)
    requires x != [] && Stop(x[0]) && y != [] && Stop(y[0])
    requires MemberText(m) + x == MemberText(n) + y
    ensures m == n && x == y
  {
    var vx, wy := ScalarText(m.value) + x, ScalarText(n.value) + y;
    MemberSplit(m, x);
    MemberSplit(n, y);
    Strings.Cancel(['"'], m.name + ['"'] + ([':'] + vx), n.name + ['"'] + ([':'] + wy));
    Strings.FirstSeparator(m.name, [':'] + vx, n.name, [':'] + wy, '"');
    Strings.Cancel([':'], vx, wy);
    ScalarPrefix(m.value, x, n.value, y);
  }

  lemma RestHead(ms: seq<Member>)
    ensures Rest(ms) != [] && Stop(Rest(ms)[0]) && (ms == [] <==> Rest(ms)[0] == '}')
    ensures ms != [] ==> Rest(ms) == [','] + (MemberText(ms[0]) + Rest(ms[1..]))
  {
  }

  lemma {:induction false} RestInjective(ms: seq<Member>, ns: seq<Member>)
    requires PlainNames(ms) && PlainNames(ns) && Rest(ms) == Rest(ns)
    ensures ms == ns
  {
    RestHead(ms);
    RestHead(ns);
    if ms != [] {
      Strings.Cancel([','], MemberText(ms[0]) + Rest(ms[1..]), MemberText(ns[0]) + Rest(ns[1..]));
      FirstInjective(ms, ns);
      RestInjective(ms[1..], ns[1..]);
      SameHeadAndTail(ms, ns);
    }
  }

  lemma FirstInjective(ms: seq<Member>, ns: seq<Member>)
    requires PlainNames(ms) && PlainNames(ns) && ms != [] && ns != []
    requires MemberText(ms[0]) + Rest(ms[1..]) == MemberText(ns[0]) + Rest(ns[1..])
    ensures ms[0] == ns[0] && Rest(ms[1..]) == Rest(ns[1..])
  {
    RestHead(ms[1..]);
    RestHead(ns[1..]);
    MemberPrefix(ms[0], Rest(ms[1..]), ns[0], Rest(ns[1..]));
  }

  lemma ObjectHead(ms: seq<Member>)
    ensures |ObjectText(ms)| >= 2 && (ms == [] <==> ObjectText(ms)[1] == '}')
    ensures ms != [] ==> ObjectText(ms) == ['{'] + (MemberText(ms[0]) + Rest(ms[1..]))
  {
  }

  lemma ObjectTextInjective(ms: seq<Member>, ns: seq<Member>)
    requires PlainNames(ms) && PlainNames(ns) && ObjectText(ms) == ObjectText(ns)
    ensures ms == ns
  {
    ObjectHead(ms);
    ObjectHead(ns);
    if ms != [] {
      Strings.Cancel(['{'], MemberText(ms[0]) + Rest(ms[1..]), MemberText(ns[0]) + Rest(ns[1..]));
      FirstInjective(ms, ns);
      RestInjective(ms[1..], ns[1..]);
      SameHeadAndTail(ms, ns);
    }
  }

  // ------------------------------------------- no object text starts inside another

  /** The start of an object text: "{}", or '{' and the quoted name of a field. */
  predicate Opens(s: string) {
    s == ['{', '}'] || (|s| > 2 && s[0] == '{' && s[1] == '"' && !Stop(s[2]))
  }

  /** In every suffix an opening brace is followed by something no object text starts with. */
  predicate Shut(s: string) { forall p | 0 <= p < |s| :: !Opens(s[p..]) }

  /** A piece of text that ends before a stop: its braces cannot open an object. */
  predicate BraceSafe(f: string) {
    forall p | 0 <= p < |f| && f[p] == '{' :: p + 1 < |f| && (f[p + 1] == '"' ==> p + 2 == |f|)
  }

  lemma SafeThenStop(f: string, r: string)
    requires BraceSafe(f) && Shut(r) && r != [] && Stop(r[0])
    ensures Shut(f + r)
  {
    var s := f + r;
    forall p | 0 <= p < |s|
      ensures !Opens(s[p..])
    {
      if p < |f| {
        assert s[p..][0] == f[p];
        if f[p] == '{' {
          assert s[p..][1] == f[p + 1];
          if f[p + 1] == '"' { assert s[p..][2] == r[0]; }
        }
      } else {
        assert s[p..] == r[p - |f|..];
      }
    }
  }

  lemma {:induction false} EscapeAllSafe(s: string)
    ensures var e := EscapeAll(s);
            (e != [] ==> e[0] != '"') &&
            forall p | 0 <= p < |e| && e[p] == '{' :: p + 1 < |e| ==> e[p + 1] != '"'
  {
    if s != [] {
      EscapeAllSafe(s[1..]);
      var c, e := Escape(s[0]), EscapeAll(s[1..]);
      assert s[0] != '{' ==> '{' !in c;
      assert s[0] == '{' ==> c == ['{'];
      forall p | 0 <= p < |c + e| && (c + e)[p] == '{'
        ensures p + 1 < |c + e| ==> (c + e)[p + 1] != '"'
      {
        if p < |c| { assert c[p] in c; } else { assert (c + e)[p] == e[p - |c|]; }
      }
    }
  }

  lemma ScalarSafe(v: Scalar)
    ensures BraceSafe(ScalarText(v))
  {
    match v
    case JNum(x) => NumberTextShape(x);
    case JStr(s) =>
      EscapeAllSafe(s);
      var e, f := EscapeAll(s), ScalarText(v);
      forall p | 0 <= p < |f| && f[p] == '{'
        ensures p + 1 < |f| && (f[p + 1] == '"' ==> p + 2 == |f|)
      {
        assert 1 <= p <= |e| && e[p - 1] == '{';
      }
  }

  lemma MemberSafe(m: Member)
    requires PlainName(m.name)
    ensures BraceSafe(MemberText(m))
  {
    ScalarSafe(m.value);
    var head, text := ['"'] + m.name + ['"'] + [':'], ScalarText(m.value);
    var f := MemberText(m);
    assert f == head + text;
    assert forall i | 0 <= i < |head| :: head[i] != '{' by { assert '{' !in head; }
    forall p | 0 <= p < |f| && f[p] == '{'
      ensures p + 1 < |f| && (f[p + 1] == '"' ==> p + 2 == |f|)
    {
      assert text[p - |head|] == '{';
    }
  }

  lemma {:induction false} RestShut(ms: seq<Member>)
    requires PlainNames(ms)
    ensures Shut(Rest(ms)) && Stop(Rest(ms)[0])
  {
    if ms != [] {
      RestShut(ms[1..]);
      MemberSafe(ms[0]);
      SafeThenStop(MemberText(ms[0]), Rest(ms[1..]));
      var s := MemberText(ms[0]) + Rest(ms[1..]);
      assert forall p | 0 < p < |[','] + s| :: ([','] + s)[p..] == s[p - 1..];
    }
  }

  /** An object text is shut behind its first character. */
  lemma ObjectShut(ms: seq<Member>)
    requires PlainNames(ms)
    ensures forall p | 0 < p < |ObjectText(ms)| :: !Opens(ObjectText(ms)[p..])
  {
    if ms != [] {
      RestShut(ms[1..]);
      MemberSafe(ms[0]);
      SafeThenStop(MemberText(ms[0]), Rest(ms[1..]));
      var s := MemberText(ms[0]) + Rest(ms[1..]);
      assert forall p | 0 < p < |ObjectText(ms)| :: ObjectText(ms)[p..] == s[p - 1..];
    }
  }

  lemma ObjectOpens(ms: seq<Member>)
    requires FieldNames(ms)
    ensures Opens(ObjectText(ms))
  {
    if ms != [] {
      var s := ObjectText(ms);
      assert s[1] == '"' && s[2] == ms[0].name[0];
    }
  }

  // ------------------------------------------- the key tells everything apart

  /** A field's name opens an object text and closes nothing. */
  predicate FieldNames(ms: seq<Member>) {
    PlainNames(ms) && forall i | 0 <= i < |ms| :: ms[i].name != [] && !Stop(ms[i].name[0])
  }

  lemma MembersNames(t: Transforms)
    ensures FieldNames(Members(t))
  {
    var last := NumberMember("q", t.q) + TextMember("fit", t.fit);
    assert FieldNames(NumberMember("q", t.q)) && FieldNames(TextMember("fit", t.fit));
    assert FieldNames(last);
    assert FieldNames(TextMember("fmt", t.fmt));
    assert FieldNames(TextMember("fmt", t.fmt) + last);
    assert FieldNames(NumberMember("h", t.h));
    assert FieldNames(NumberMember("h", t.h) + (TextMember("fmt", t.fmt) + last));
    assert FieldNames(NumberMember("w", t.w));
  }

  function Find(ms: seq<Member>, name: string): Option<Scalar> {
    if ms == [] then None else if ms[0].name == name then Some(ms[0].value) else Find(ms[1..], name)
  }

  lemma {:induction false} FindConcat(a: seq<Member>, b: seq<Member>, name: string)
    requires |a| <= 1
    ensures Find(a + b, name) == if Find(a, name).Some? then Find(a, name) else Find(b, name)
  {
    if a == [] { assert a + b == b; } else { assert (a + b)[1..] == b; }
  }

  lemma FindField(t: Transforms, name: string)
    ensures Find(Members(t), name) ==
            var w := Find(NumberMember("w", t.w), name);
            var h := Find(NumberMember("h", t.h), name);
            var fmt := Find(TextMember("fmt", t.fmt), name);
            var q := Find(NumberMember("q", t.q), name);
            if w.Some? then w else if h.Some? then h else if fmt.Some? then fmt
            else if q.Some? then q else Find(TextMember("fit", t.fit), name)
  {
    var last := TextMember("fit", t.fit);
    FindConcat(NumberMember("q", t.q), last, name);
    FindConcat(TextMember("fmt", t.fmt), NumberMember("q", t.q) + last, name);
    FindConcat(NumberMember("h", t.h), TextMember("fmt", t.fmt) + (NumberMember("q", t.q) + last), name);
    FindConcat(NumberMember("w", t.w),
      NumberMember("h", t.h) + (TextMember("fmt", t.fmt) + (NumberMember("q", t.q) + last)), name);
  }

  function AsNumber(x: Option<Number>): Option<Scalar> { if x.Some? then Some(JNum(x.value)) else None }

  function AsText(x: Option<string>): Option<Scalar> { if x.Some? then Some(JStr(x.value)) else None }

  lemma FindW(t: Transforms) ensures Find(Members(t), "w") == AsNumber(t.w) { FindField(t, "w"); }

  lemma FindH(t: Transforms) ensures Find(Members(t), "h") == AsNumber(t.h) { FindField(t, "h"); }

  lemma FindFmt(t: Transforms) ensures Find(Members(t), "fmt") == AsText(t.fmt) { FindField(t, "fmt"); }

  lemma FindQ(t: Transforms) ensures Find(Members(t), "q") == AsNumber(t.q) { FindField(t, "q"); }

  lemma FindFit(t: Transforms) ensures Find(Members(t), "fit") == AsText(t.fit) { FindField(t, "fit"); }

  lemma MembersInjective(t: Transforms, u: Transforms)
    requires Members(t) == Members(u)
    ensures t == u
  {
    FindW(t); FindW(u);
    FindH(t); FindH(u);
    FindFmt(t); FindFmt(u);
    FindQ(t); FindQ(u);
    FindFit(t); FindFit(u);
  }

  /** JSON text tells any two parameter objects apart. */
  lemma StringifyInjective(t: Transforms, u: Transforms)
    requires Stringify(t) == Stringify(u)
    ensures t == u
  {
    MembersNames(t);
    MembersNames(u);
    ObjectTextInjective(Members(t), Members(u));
    MembersInjective(t, u);
  }

  function Given(t: Option<Transforms>): Transforms { if t.Some? then t.value else NO_TRANSFORMS }

  lemma TransformKeyIsObject(t: Option<Transforms>)
    ensures TransformKey(t) == Stringify(Given(t))
  {
  }

  /** The shorter of two ends of one text is the end of the longer. */
  lemma ShorterEnd(x: string, a: string, y: string, b: string)
    requires x + a == y + b && |a| > |b|
    ensures b == a[|a| - |b|..]
  {
    var s := x + a;
    assert s == y + b;
    assert b == s[|s| - |b|..] && a == s[|s| - |a|..];
  }

  lemma NoneInside(t: Transforms, t': Transforms, p: int)
    requires 0 < p < |Stringify(t)|
    ensures Stringify(t') != Stringify(t)[p..]
  {
    MembersNames(t);
    MembersNames(t');
    ObjectOpens(Members(t'));
    ObjectShut(Members(t));
  }

  lemma TailLength(key: string, t: Transforms, key': string, t': Transforms)
    requires key + [':'] + Stringify(t) == key' + [':'] + Stringify(t')
    ensures |Stringify(t)| <= |Stringify(t')|
  {
    var a, b := Stringify(t), Stringify(t');
    if |a| > |b| {
      ShorterEnd(key + [':'], a, key' + [':'], b);
      assert b != [] by { MembersNames(t'); ObjectHead(Members(t')); }
      NoneInside(t, t', |a| - |b|);
    }
  }

  lemma TailInjective(key: string, t: Transforms, key': string, t': Transforms)
    requires key + [':'] + Stringify(t) == key' + [':'] + Stringify(t')
    ensures key == key' && t == t'
  {
    TailLength(key, t, key', t');
    TailLength(key', t', key, t);
    var s := key + [':'] + Stringify(t);
    assert key == s[..|key|] && key' == s[..|key'|];
    assert Stringify(t) == s[|key| + 1..] && Stringify(t') == s[|key'| + 1..];
    StringifyInjective(t, t');
  }

  /** The text a file is named by inside a cache key. */
  function FileText(bucket: string, key: string): string { bucket + [':'] + key }

  lemma KeyOfText(region: string, b: string, k: string, t: Option<Transforms>)
    ensures CacheKey(region, b, k, t) == "cdn:" + region + [':'] + (FileText(b, k) + [':'] + Stringify(Given(t)))
  {
    TransformKeyIsObject(t);
    MoveIn(b, k, TransformKey(t));
  }

  lemma MoveIn(b: string, k: string, j: string)
    ensures b + [':'] + (k + [':'] + j) == b + [':'] + k + [':'] + j
  {
  }

  /**
   Two calls share a cache key exactly when bucket and key, joined with a colon,
   are the same text and the parameters are the same, absent ones counting as five
   undefined ones.
   */
  lemma CacheKeyExact(region: string, b: string, k: string, t: Option<Transforms>,
                      b': string, k': string, t': Option<Transforms>)
    ensures CacheKey(region, b, k, t) == CacheKey(region, b', k', t') <==>
            FileText(b, k) == FileText(b', k') && Given(t) == Given(t')
  {
    KeyOfText(region, b, k, t);
    KeyOfText(region, b', k', t');
    if CacheKey(region, b, k, t) == CacheKey(region, b', k', t') {
      Strings.Cancel("cdn:" + region + [':'], FileText(b, k) + [':'] + Stringify(Given(t)),
                     FileText(b', k') + [':'] + Stringify(Given(t')));
      TailInjective(FileText(b, k), Given(t), FileText(b', k'), Given(t'));
    }
  }

  /** For buckets without colons the text names one file. */
  lemma ColonFreeTextIsFile(b: string, k: string, b': string, k': string)
    requires ':' !in b && ':' !in b'
    ensures FileText(b, k) == FileText(b', k') <==> b == b' && k == k'
  {
    if FileText(b, k) == FileText(b', k') { Strings.FirstSeparator(b, k, b', k', ':'); }
  }

  /** A colon in a bucket name makes two files share every key. */
  lemma ColonBucketsCollide(region: string, a: string, b: string, c: string, t: Option<Transforms>)
    ensures CacheKey(region, a + [':'] + b, c, t) == CacheKey(region, a, b + [':'] + c, t)
  {
    assert FileText(a + [':'] + b, c) == FileText(a, b + [':'] + c);
    CacheKeyExact(region, a + [':'] + b, c, t, a, b + [':'] + c, t);
  }

  // ------------------------------------------- the text is JSON

  /** The number a row of decimal digits stands for. */
  function Decimal(s: string): int {
    if s == [] then 0 else 10 * Decimal(s[..|s| - 1]) + (s[|s| - 1] as int - '0' as int)
  }

  /** Digits only, without a leading zero, and the number's own. */
  lemma {:induction false} NatTextExact(n: nat)
    ensures Numeral(NatText(n)) && Decimal(NatText(n)) == n
    ensures n > 0 ==> NatText(n)[0] != '0'
  {
    if n >= 10 {
      NatTextExact(n / 10);
      var t := NatText(n / 10);
      assert NatText(n)[..|t|] == t;
    }
  }

  function HexValue(c: char): int {
    if '0' <= c <= '9' then c as int - '0' as int else if 'a' <= c <= 'f' then c as int - 'a' as int + 10 else 0
  }

  /** A character by its four hexadecimal digits. */
  function ByCode(a: char, b: char, c: char, d: char): char {
    var code := 4096 * HexValue(a) + 256 * HexValue(b) + 16 * HexValue(c) + HexValue(d);
    if code < 0xD800 then code as char else '\U{FFFD}'
  }

  /** The character that a two-character escape of section 7 of RFC 8259 stands for. */
  function Escaped(c: char): char {
    match c
    case 'b' => 8 as char
    case 't' => 9 as char
    case 'n' => 10 as char
    case 'f' => 12 as char
    case 'r' => 13 as char
    case _ => c
  }

  /** The text of a JSON string between its quotes, as section 7 of RFC 8259 reads it. */
  function Unescape(s: string): string {
    if s == [] then []
    else if s[0] != '\\' || |s| == 1 then [s[0]] + Unescape(s[1..])
    else if s[1] == 'u' && |s| >= 6 then [ByCode(s[2], s[3], s[4], s[5])] + Unescape(s[6..])
    else [Escaped(s[1])] + Unescape(s[2..])
  }

  lemma EscapeReads(c: char, rest: string)
    ensures Unescape(Escape(c) + rest) == [c] + Unescape(rest)
  {
    var e := Escape(c);
    if |e| == 1 {
      UnescapeOne(c, rest);
    } else if |e| == 2 {
      UnescapeTwo(e[1], rest);
      assert e == ['\\', e[1]];
    } else {
      CodeReads(c as int);
      UnescapeSix(e[4], e[5], rest);
    }
  }

  lemma UnescapeOne(c: char, rest: string)
    requires c != '\\'
    ensures Unescape([c] + rest) == [c] + Unescape(rest)
  {
    assert ([c] + rest)[1..] == rest;
  }

  lemma UnescapeTwo(c: char, rest: string)
    requires c != 'u'
    ensures Unescape(['\\', c] + rest) == [Escaped(c)] + Unescape(rest)
  {
    assert (['\\', c] + rest)[2..] == rest;
  }

  lemma UnescapeSix(c: char, d: char, rest: string)
    ensures Unescape(['\\', 'u', '0', '0', c, d] + rest) == [ByCode('0', '0', c, d)] + Unescape(rest)
  {
    assert (['\\', 'u', '0', '0', c, d] + rest)[6..] == rest;
  }

  lemma CodeReads(n: nat)
    requires n < 32
    ensures ByCode('0', '0', HexDigit(n / 16), HexDigit(n % 16)) == n as char
  {
    assert HexValue(HexDigit(n / 16)) == n / 16 && HexValue(HexDigit(n % 16)) == n % 16;
  }

  /** A printed text reads back as itself. */
  lemma {:induction false} EscapeAllReads(s: string)
    ensures Unescape(EscapeAll(s)) == s
  {
    if s != [] {
      EscapeReads(s[0], EscapeAll(s[1..]));
      EscapeAllReads(s[1..]);
    }
  }

  function MemberTexts(ms: seq<Member>): seq<string> {
    if ms == [] then [] else [MemberText(ms[0])] + MemberTexts(ms[1..])
  }

  lemma {:induction false} TextsOfMembers(ms: seq<Member>)
    ensures |MemberTexts(ms)| == |ms|
    ensures forall i | 0 <= i < |ms| :: MemberTexts(ms)[i] == MemberText(ms[i])
  {
    if ms != [] { TextsOfMembers(ms[1..]); }
  }

  lemma MemberWritten(m: Member)
    ensures MemberText(m) == "\"" + m.name + "\":" + match m.value
                                                      case JNum(x) => NumberText(x)
                                                      case JStr(s) => "\"" + EscapeAll(s) + "\""
  {
  }

  lemma {:induction false} RestWritten(ms: seq<Member>)
    ensures ms != [] ==> Rest(ms) == "," + Strings.Join(MemberTexts(ms), ',') + "}"
  {
    if |ms| > 1 {
      RestWritten(ms[1..]);
      JoinedTexts(ms);
      Nest(MemberText(ms[0]), Strings.Join(MemberTexts(ms[1..]), ','));
    } else if |ms| == 1 {
      LastWritten(ms);
    }
  }

  lemma LastWritten(ms: seq<Member>)
    requires |ms| == 1
    ensures Strings.Join(MemberTexts(ms), ',') == MemberText(ms[0]) && Rest(ms[1..]) == "}"
  {
  }

  lemma JoinedTexts(ms: seq<Member>)
    requires |ms| > 1
    ensures Strings.Join(MemberTexts(ms), ',')
            == MemberText(ms[0]) + [','] + Strings.Join(MemberTexts(ms[1..]), ',')
  {
    assert MemberTexts(ms)[1..] == MemberTexts(ms[1..]);
    TextsOfMembers(ms);
  }

  lemma Nest(a: string, b: string)
    ensures [','] + (a + ([','] + b + ['}'])) == [','] + (a + [','] + b) + ['}']
    ensures ['{'] + (a + ([','] + b + ['}'])) == ['{'] + (a + [','] + b) + ['}']
  {
  }

  /**
   The text is the members between braces and with commas between them, each its name
   in quotes, a colon, and the number or the escaped text in quotes.
   */
  lemma ObjectWritten(ms: seq<Member>) returns (texts: seq<string>)
    ensures |texts| == |ms| && ObjectText(ms) == "{" + Strings.Join(texts, ',') + "}"
    ensures forall i | 0 <= i < |ms| ::
              texts[i] == "\"" + ms[i].name + "\":" + match ms[i].value
                                                       case JNum(x) => NumberText(x)
                                                       case JStr(s) => "\"" + EscapeAll(s) + "\""
  {
    texts := MemberTexts(ms);
    TextsOfMembers(ms);
    forall i | 0 <= i < |ms|
      ensures texts[i] == "\"" + ms[i].name + "\":" + match ms[i].value
                                                       case JNum(x) => NumberText(x)
                                                       case JStr(s) => "\"" + EscapeAll(s) + "\""
    {
      MemberWritten(ms[i]);
    }
    Enclosed(ms);
  }

  lemma Enclosed(ms: seq<Member>)
    ensures ObjectText(ms) == "{" + Strings.Join(MemberTexts(ms), ',') + "}"
  {
    if |ms| > 1 {
      RestWritten(ms[1..]);
      JoinedTexts(ms);
      Nest(MemberText(ms[0]), Strings.Join(MemberTexts(ms[1..]), ','));
    } else if |ms| == 1 {
      LastWritten(ms);
    }
  }
}
