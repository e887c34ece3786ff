/**
 Purging by glob pattern: `buildPurgePattern` and the matcher Redis runs it with
 (`*`, `?`, character classes and backslash escapes).
 */
module PurgePattern {
  import opened SharedKey

  function Build(bucket: string, key: string, prefix: string): string {
    if key != "" then "cdn:*:" + (bucket + ['/'] + key + ['*'])
    else if prefix != "" then "cdn:*:" + (bucket + ['/'] + prefix + ['*'])
    else "cdn:*:" + (bucket + ['/'] + ['*'])
  }

  // ---------------------------------------------------------------- the matcher

  predicate Between(a: char, c: char, b: char) {
    if a <= b then a <= c <= b else b <= c <= a
  }

  /** Scans a class from index i: whether it holds `c`, and where the pattern goes on. */
  function Class(p: string, i: nat, c: char, found: bool): (r: (bool, nat))
    requires i <= |p|
    ensures i <= r.1 <= |p|
    decreases |p| - i
  {
    if i == |p| then (found, i)
    else if p[i] == '\\' && i + 1 < |p| then Class(p, i + 2, c, found || p[i + 1] == c)
    else if p[i] == ']' then (found, i + 1)
    else if i + 2 < |p| && p[i + 1] == '-' then Class(p, i + 3, c, found || Between(p[i], c, p[i + 2]))
    else Class(p, i + 1, c, found || p[i] == c)
  }

  predicate Match(p: string, s: string)
    decreases |p| + |s|
  {
    if p == [] then s == []
    else if p[0] == '*' then Match(p[1..], s) || (s != [] && Match(p, s[1..]))
    else if s == [] then false
    else if p[0] == '?' then Match(p[1..], s[1..])
    else if p[0] == '[' then
      var negated := |p| > 1 && p[1] == '^';
      var (found, next) := Class(p, if negated then 2 else 1, s[0], false);
      found != negated && Match(p[next..], s[1..])
    else if p[0] == '\\' && |p| > 1 then p[1] == s[0] && Match(p[2..], s[1..])
    else p[0] == s[0] && Match(p[1..], s[1..])
  }

  // ------------------------------------------- patterns cover what they are meant for

  /** Text the matcher reads as itself or as a wildcard that the text itself satisfies. */
  predicate Unbracketed(t: string) { '[' !in t && '\\' !in t }

  lemma {:induction false} SelfMatch(t: string, p: string, s: string)
    requires Unbracketed(t) && Match(p, s)
    ensures Match(t + p, t + s)
  {
    if t == [] {
      assert t + p == p && t + s == s;
    } else {
      SelfMatch(t[1..], p, s);
      assert (t + p)[1..] == t[1..] + p && (t + s)[1..] == t[1..] + s;
      assert (t + p)[0] == t[0] == (t + s)[0];
      assert t[0] in t;
      if t[0] == '*' { assert Match(t + p, (t + s)[1..]); }
    }
  }

  lemma {:induction false} StarSwallows(p: string, a: string, s: string)
    requires Match(p, s)
    ensures Match(['*'] + p, a + s)
  {
    var q := ['*'] + p;
    assert q[1..] == p;
    if a == [] {
      assert a + s == s;
    } else {
      StarSwallows(p, a[1..], s);
      assert (a + s)[1..] == a[1..] + s;
    }
  }

  /** A pattern with a literal middle matches every key that goes on after that middle. */
  lemma Covers(region: string, middle: string, rest: string)
    requires Unbracketed(middle)
    ensures Match("cdn:*:" + (middle + ['*']), "cdn:" + region + [':'] + middle + rest)
  {
    assert Match([], []);
    StarSwallows([], rest, []);
    assert ['*'] + [] == ['*'] && rest + [] == rest;
    SelfMatch([':'] + middle, ['*'], rest);
    StarSwallows([':'] + middle + ['*'], region, [':'] + middle + rest);
    SelfMatch("cdn:", ['*'] + ([':'] + middle + ['*']), region + ([':'] + middle + rest));
    assert "cdn:" + (['*'] + ([':'] + middle + ['*'])) == "cdn:*:" + (middle + ['*']);
    assert "cdn:" + (region + ([':'] + middle + rest)) == "cdn:" + region + [':'] + middle + rest;
  }

  lemma Regroup(a: string, b: string, c: string, d: string, e: string, f: string)
    ensures a + (b + c + d) + (e + f) == a + b + c + (d + e) + f
  {
  }

  lemma CoversKey(region: string, bucket: string, start: string, key: string, es: seq<Entry>)
    requires Unbracketed(bucket) && Unbracketed(key) && start <= key
    ensures Match("cdn:*:" + (bucket + ['/'] + start + ['*']), BuildKey(region, bucket, key, es))
  {
    var rest, suffix := key[|start|..], Suffix(es);
    assert forall c | c in start :: c in key;
    assert Unbracketed(bucket + ['/'] + start);
    Covers(region, bucket + ['/'] + start, rest + suffix);
    Regroup("cdn:" + region + [':'], bucket, ['/'], start, rest, suffix);
    assert start + rest == key;
  }

  /**
   Purging a file, a non-empty prefix of its key or its bucket covers the file's
   key in every region and for all transforms.
   */
  lemma PurgeCovers(region: string, bucket: string, key: string, prefix: string, es: seq<Entry>)
    requires Unbracketed(bucket) && Unbracketed(key) && prefix <= key
    ensures key != "" ==> Match(Build(bucket, key, prefix), BuildKey(region, bucket, key, es))
    ensures Match(Build(bucket, "", prefix), BuildKey(region, bucket, key, es))
    ensures Match(Build(bucket, "", ""), BuildKey(region, bucket, key, es))
  {
    CoversKey(region, bucket, key, key, es);
    CoversKey(region, bucket, prefix, key, es);
    CoversKey(region, bucket, "", key, es);
    assert bucket + ['/'] + "" == bucket + ['/'];
  }

  // ------------------------------------------- and nothing else

  /** Text without any character the matcher treats specially. */
  predicate Literal(t: string) { Unbracketed(t) && '*' !in t && '?' !in t }

  lemma {:induction false} LiteralExact(t: string, p: string, s: string)
    requires Literal(t)
    ensures Match(t + p, s) <==> t <= s && Match(p, s[|t|..])
  {
    if t == [] {
      assert t + p == p && s[0..] == s;
    } else {
      assert (t + p)[1..] == t[1..] + p && (t + p)[0] == t[0];
      assert t[0] in t;
      assert forall c | c in t[1..] :: c in t;
      if s != [] {
        LiteralExact(t[1..], p, s[1..]);
        assert t[0] == s[0] ==> (t <= s <==> t[1..] <= s[1..]) by {
          assert t == [t[0]] + t[1..] && s == [s[0]] + s[1..];
        }
        assert t <= s ==> s[1..][|t[1..]|..] == s[|t|..];
      }
    }
  }

  ghost predicate MatchesFrom(p: string, s: string, i: nat) { i <= |s| && Match(p, s[i..]) }

  lemma {:induction false} StarExact(p: string, s: string)
    ensures Match(['*'] + p, s) <==> exists i: nat :: MatchesFrom(p, s, i)
  {
    var q := ['*'] + p;
    assert q[1..] == p && s[0..] == s;
    assert Match(p, s) <==> MatchesFrom(p, s, 0);
    if s != [] {
      StarExact(p, s[1..]);
      forall i: nat ensures i > 0 ==> (MatchesFrom(p, s, i) <==> MatchesFrom(p, s[1..], i - 1)) {
        if 0 < i <= |s| { assert s[i..] == s[1..][i - 1..]; }
      }
      if Match(q, s[1..]) {
        var i: nat :| MatchesFrom(p, s[1..], i);
        assert MatchesFrom(p, s, i + 1);
      }
      if i: nat :| MatchesFrom(p, s, i) && i > 0 {
        assert MatchesFrom(p, s[1..], i - 1);
      }
    } else {
      assert forall i: nat :: MatchesFrom(p, s, i) ==> i == 0;
    }
  }

  ghost predicate OccursAt(s: string, part: string, i: nat) { i <= |s| && part <= s[i..] }

  /**
   For a literal middle the pattern matches exactly the keys that start with
   "cdn:" and in which the middle follows some later colon.
   */
  lemma PurgeExact(middle: string, s: string)
    requires Literal(middle)
    ensures Match("cdn:*:" + (middle + ['*']), s) <==>
            "cdn:" <= s && exists i: nat :: OccursAt(s[4..], [':'] + middle, i)
  {
    var tail := [':'] + middle;
    assert "cdn:*:" + (middle + ['*']) == "cdn:" + (['*'] + (tail + ['*']));
    LiteralExact("cdn:", ['*'] + (tail + ['*']), s);
    if "cdn:" <= s {
      var r := s[4..];
      StarExact(tail + ['*'], r);
      forall i: nat | i <= |r| ensures MatchesFrom(tail + ['*'], r, i) <==> OccursAt(r, tail, i) {
        LiteralExact(tail, ['*'], r[i..]);
        if tail <= r[i..] {
          StarSwallows([], r[i..][|tail|..], []);
          assert r[i..][|tail|..] + [] == r[i..][|tail|..] && ['*'] + [] == ['*'];
        }
      }
      if i: nat :| MatchesFrom(tail + ['*'], r, i) { assert OccursAt(r, tail, i); }
      if i: nat :| OccursAt(r, tail, i) { assert MatchesFrom(tail + ['*'], r, i); }
    }
  }

  /**
   For names without special characters the pattern for a file, for a prefix or for a
   bucket matches exactly the keys that start with "cdn:" and in which the bucket, a
   slash and the file's key, or else the prefix, follow some later colon.
   */
  lemma PurgeReachesExactly(bucket: string, key: string, prefix: string, s: string)
    requires Literal(bucket) && Literal(key) && Literal(prefix)
    ensures var named := ":" + bucket + "/" + (if key != "" then key else prefix);
            Match(Build(bucket, key, prefix), s) <==> "cdn:" <= s && exists i: nat :: OccursAt(s[4..], named, i)
  {
    var start := if key != "" then key else prefix;
    var middle := bucket + ['/'] + start;
    assert Literal(middle);
    PurgeExact(middle, s);
    assert [':'] + middle == ":" + bucket + "/" + start;
    assert Build(bucket, key, prefix) == "cdn:*:" + (middle + ['*']);
  }

  // ------------------------------------------- brackets and backslashes

  /** Both patterns match the same text. */
  ghost predicate Alike(p: string, q: string) { forall s: string :: Match(p, s) <==> Match(q, s) }

  lemma {:induction false} SameAfter(t: string, p: string, q: string, s: string)
    requires Unbracketed(t) && Alike(p, q)
    ensures Match(t + p, s) <==> Match(t + q, s)
    decreases |t| + |s|
  {
    if t == [] {
      assert t + p == p && t + q == q;
    } else {
      assert (t + p)[1..] == t[1..] + p && (t + q)[1..] == t[1..] + q && (t + p)[0] == t[0] == (t + q)[0];
      assert t[0] in t && forall c | c in t[1..] :: c in t;
      if t[0] == '*' {
        SameAfter(t[1..], p, q, s);
        if s != [] { SameAfter(t, p, q, s[1..]); }
      } else if s != [] {
        SameAfter(t[1..], p, q, s[1..]);
      }
    }
  }

  /** A character that is itself in a pattern, alone, in a class and after a backslash. */
  predicate Ordinary(x: char) { Literal([x]) && x != '^' && x != ']' }

  lemma ClassIsChar(x: char, rest: string)
    requires Ordinary(x)
    ensures Alike(['[', x, ']'] + rest, [x] + rest)
  {
    var p, q := ['[', x, ']'] + rest, [x] + rest;
    assert p[0] == '[' && p[1] == x && p[2] == ']' && p[3..] == rest && q[0] == x && q[1..] == rest;
    assert x in [x];
    forall s: string ensures Match(p, s) <==> Match(q, s) {
      if s != [] {
        assert Class(p, 2, s[0], s[0] == x) == (s[0] == x, 3);
        assert Class(p, 1, s[0], false) == (s[0] == x, 3);
      }
    }
  }

  lemma EscapeIsChar(x: char, rest: string)
    requires Ordinary(x)
    ensures Alike(['\\', x] + rest, [x] + rest)
  {
    var p, q := ['\\', x] + rest, [x] + rest;
    assert p[0] == '\\' && p[1] == x && p[2..] == rest && q[0] == x && q[1..] == rest;
    assert x in [x];
  }

  lemma BuildAround(bucket: string, a: string, part: string, b: string)
    requires part != []
    ensures Build(bucket, a + part + b, "") == "cdn:*:" + (bucket + ['/'] + a) + (part + (b + ['*']))
  {
    assert bucket + ['/'] + (a + part + b) + ['*'] == bucket + ['/'] + a + (part + (b + ['*']));
  }

  lemma BuildAlike(bucket: string, a: string, part: string, part': string, b: string, s: string)
    requires Unbracketed(bucket) && Unbracketed(a) && part != [] && part' != []
    requires Alike(part + (b + ['*']), part' + (b + ['*']))
    ensures Match(Build(bucket, a + part + b, ""), s) <==> Match(Build(bucket, a + part' + b, ""), s)
  {
    BuildAround(bucket, a, part, b);
    BuildAround(bucket, a, part', b);
    SameAfter("cdn:*:" + (bucket + ['/'] + a), part + (b + ['*']), part' + (b + ['*']), s);
  }

  /**
   The pattern for a key with a one-character class, or with an escape, matches what
   that for the key with just the character does.
   */
  lemma BracketsMeanTheirCharacter(bucket: string, a: string, x: char, b: string, s: string)
    requires Unbracketed(bucket) && Unbracketed(a) && Ordinary(x)
    ensures Match(Build(bucket, a + ['[', x, ']'] + b, ""), s) <==> Match(Build(bucket, a + [x] + b, ""), s)
    ensures Match(Build(bucket, a + ['\\', x] + b, ""), s) <==> Match(Build(bucket, a + [x] + b, ""), s)
  {
    ClassIsChar(x, b + ['*']);
    EscapeIsChar(x, b + ['*']);
    BuildAlike(bucket, a, ['[', x, ']'], [x], b, s);
    BuildAlike(bucket, a, ['\\', x], [x], b, s);
  }

  // ------------------------------------------- patterns piece by piece

  /** What a class lists: a character, a range, or a character after a backslash. */
  datatype Item = One(c: char) | Span(a: char, b: char) | Quoted(c: char)

  /** What a pattern without stars is made of; each piece reads one character. */
  datatype Piece = Char(c: char) | Any | Escaped(c: char) | Set(negated: bool, items: seq<Item>)

  function ItemText(x: Item): string {
    match x
    case One(c) => [c]
    case Span(a, b) => [a, '-', b]
    case Quoted(c) => ['\\', c]
  }

  function ItemsText(xs: seq<Item>): string {
    if xs == [] then [] else ItemText(xs[0]) + ItemsText(xs[1..])
  }

  /** A class up to where it is closed. */
  function SetText(negated: bool, items: seq<Item>): string {
    (if negated then ['[', '^'] else ['[']) + ItemsText(items)
  }

  function PieceText(x: Piece): string {
    match x
    case Char(c) => [c]
    case Any => ['?']
    case Escaped(c) => ['\\', c]
    case Set(negated, items) => SetText(negated, items) + [']']
  }

  function Text(xs: seq<Piece>): string {
    if xs == [] then [] else PieceText(xs[0]) + Text(xs[1..])
  }

  predicate ItemReads(x: Item, c: char) {
    match x
    case One(d) => c == d
    case Span(a, b) => Between(a, c, b)
    case Quoted(d) => c == d
  }

  predicate Lists(xs: seq<Item>, c: char) { exists i | 0 <= i < |xs| :: ItemReads(xs[i], c) }

  predicate Reads(x: Piece, c: char) {
    match x
    case Char(d) => c == d
    case Any => true
    case Escaped(d) => c == d
    case Set(negated, items) => Lists(items, c) != negated
  }

  /** The text stands for the item: its first character is none that closes, escapes or joins a range. */
  predicate ItemOk(x: Item) { x.Quoted? || ItemText(x)[0] !in {']', '\\', '-'} }

  /** The text of the list stands for it, and does not start as a negated one would. */
  predicate ItemsOk(negated: bool, xs: seq<Item>) {
    (forall i | 0 <= i < |xs| :: ItemOk(xs[i])) && (!negated && xs != [] ==> ItemText(xs[0])[0] != '^')
  }

  predicate PieceOk(x: Piece) {
    match x
    case Char(c) => c !in {'*', '?', '[', '\\'}
    case Any => true
    case Escaped(_) => true
    case Set(negated, items) => ItemsOk(negated, items)
  }

  predicate PiecesOk(xs: seq<Piece>) { forall i | 0 <= i < |xs| :: PieceOk(xs[i]) }

  lemma ListsFirst(xs: seq<Item>, c: char)
    requires xs != []
    ensures Lists(xs, c) <==> ItemReads(xs[0], c) || Lists(xs[1..], c)
  {
    if i :| 0 <= i < |xs| && ItemReads(xs[i], c) && i > 0 { assert xs[1..][i - 1] == xs[i]; }
    if i :| 0 <= i < |xs[1..]| && ItemReads(xs[1..][i], c) { assert xs[i + 1] == xs[1..][i]; }
  }

  lemma ClassNext(p: string, i: nat, items: seq<Item>, tail: string, c: char, found: bool)
    requires items != [] && i <= |p| && p[i..] == ItemsText(items) + tail && (tail == [] || tail[0] == ']')
    requires forall j | 0 <= j < |items| :: ItemOk(items[j])
    ensures var next := i + |ItemText(items[0])|;
            next <= |p| && p[next..] == ItemsText(items[1..]) + tail &&
            Class(p, i, c, found) == Class(p, next, c, found || ItemReads(items[0], c))
  {
    var x, rest := items[0], ItemsText(items[1..]) + tail;
    Associate(ItemText(x), ItemsText(items[1..]), tail);
    NextStart(items[1..], tail);
    Skip(p, i, ItemText(x), rest);
    ClassItem(p, i, x, rest, c, found);
  }

  /** Scanning a class goes by its items, to the bracket that closes it or, without one, to the end. */
  lemma {:induction false} ClassReads(p: string, i: nat, items: seq<Item>, tail: string, c: char, found: bool)
    requires i <= |p| && p[i..] == ItemsText(items) + tail && (tail == [] || tail[0] == ']')
    requires forall j | 0 <= j < |items| :: ItemOk(items[j])
    ensures Class(p, i, c, found) == (found || Lists(items, c), |p| - |tail| + if tail == [] then 0 else 1)
    decreases |items|
  {
    if items == [] {
      assert ItemsText(items) + tail == tail;
      ClassEnds(p, i, tail, c, found);
    } else {
      ClassNext(p, i, items, tail, c, found);
      ClassReads(p, i + |ItemText(items[0])|, items[1..], tail, c, found || ItemReads(items[0], c));
      ListsFirst(items, c);
    }
  }

  lemma ClassEnds(p: string, i: nat, tail: string, c: char, found: bool)
    requires i <= |p| && p[i..] == tail && (tail == [] || tail[0] == ']')
    ensures Class(p, i, c, found) == (found, |p| - |tail| + if tail == [] then 0 else 1)
  {
    if tail != [] { assert p[i] == tail[0]; }
  }

  lemma Skip(p: string, i: nat, t: string, rest: string)
    requires i <= |p| && p[i..] == t + rest
    ensures i + |t| <= |p| && p[i + |t|..] == rest
  {
    assert p[i..][|t|..] == rest;
  }

  lemma NextStart(items: seq<Item>, tail: string)
    requires (tail == [] || tail[0] == ']') && forall j | 0 <= j < |items| :: ItemOk(items[j])
    ensures var rest := ItemsText(items) + tail; rest == [] || rest[0] != '-'
  {
    if items != [] { assert (ItemsText(items) + tail)[0] == ItemText(items[0])[0]; }
  }

  lemma ClassItem(p: string, i: nat, x: Item, rest: string, c: char, found: bool)
    requires i <= |p| && p[i..] == ItemText(x) + rest && ItemOk(x) && (rest == [] || rest[0] != '-')
    ensures i + |ItemText(x)| <= |p|
    ensures Class(p, i, c, found) == Class(p, i + |ItemText(x)|, c, found || ItemReads(x, c))
  {
    assert forall k | 0 <= k < |p| - i :: p[i + k] == p[i..][k];
    assert p[i] == ItemText(x)[0];
    match x
    case One(_) => if rest != [] { assert p[i + 1] == rest[0]; }
    case Span(_, b) => assert p[i + 1] == '-' && p[i + 2] == b;
    case Quoted(d) => assert p[i + 1] == d;
  }

  /** Where the items of a class start. */
  lemma SetStart(negated: bool, items: seq<Item>, tail: string)
    requires ItemsOk(negated, items) && (tail == [] || tail[0] == ']')
    ensures var p, start := SetText(negated, items) + tail, if negated then 2 else 1;
            start <= |p| && p[0] == '[' && p[start..] == ItemsText(items) + tail &&
            ((|p| > 1 && p[1] == '^') <==> negated)
  {
    var p, start := SetText(negated, items) + tail, if negated then 2 else 1;
    assert p == (if negated then ['[', '^'] else ['[']) + (ItemsText(items) + tail);
    if items != [] { assert p[start] == ItemText(items[0])[0]; }
  }

  lemma MatchClass(p: string, s: string, negated: bool)
    requires p != [] && p[0] == '[' && s != [] && ((|p| > 1 && p[1] == '^') <==> negated)
    ensures var (found, next) := Class(p, if negated then 2 else 1, s[0], false);
            Match(p, s) <==> found != negated && Match(p[next..], s[1..])
  {
  }

  lemma ReadSet(p: string, negated: bool, items: seq<Item>, tail: string, s: string)
    requires ItemsOk(negated, items) && (tail == [] || tail[0] == ']') && s != []
    requires var start := if negated then 2 else 1;
             start <= |p| && p[0] == '[' && p[start..] == ItemsText(items) + tail &&
             ((|p| > 1 && p[1] == '^') <==> negated)
    ensures |tail| <= |p|
    ensures Match(p, s) <==>
            Reads(Set(negated, items), s[0]) && Match(p[|p| - |tail| + if tail == [] then 0 else 1..], s[1..])
  {
    ClassReads(p, if negated then 2 else 1, items, tail, s[0], false);
    MatchClass(p, s, negated);
  }

  /** A class reads one character it lists, or one it does not; one that is not closed ends the pattern. */
  lemma SetExact(negated: bool, items: seq<Item>, tail: string, s: string)
    requires ItemsOk(negated, items) && (tail == [] || tail[0] == ']')
    ensures Match(SetText(negated, items) + tail, s) <==>
            s != [] && Reads(Set(negated, items), s[0]) && Match(if tail == [] then [] else tail[1..], s[1..])
  {
    SetStart(negated, items, tail);
    EndsOf(SetText(negated, items), tail);
    if s != [] { ReadSet(SetText(negated, items) + tail, negated, items, tail, s); }
  }

  lemma EndsOf(a: string, tail: string)
    ensures (a + tail)[|a + tail| - |tail|..] == tail
    ensures tail != [] ==> (a + tail)[|a + tail| - |tail| + 1..] == tail[1..]
  {
  }

  lemma SetClosed(negated: bool, items: seq<Item>, rest: string, s: string)
    requires ItemsOk(negated, items)
    ensures Match(SetText(negated, items) + [']'] + rest, s) <==>
            s != [] && Reads(Set(negated, items), s[0]) && Match(rest, s[1..])
  {
    SetExact(negated, items, [']'] + rest, s);
    assert SetText(negated, items) + [']'] + rest == SetText(negated, items) + ([']'] + rest);
    assert ([']'] + rest)[1..] == rest;
  }

  lemma PieceExact(x: Piece, rest: string, s: string)
    requires PieceOk(x)
    ensures Match(PieceText(x) + rest, s) <==> s != [] && Reads(x, s[0]) && Match(rest, s[1..])
  {
    var p := PieceText(x) + rest;
    match x
    case Char(c) => assert p[0] == c && p[1..] == rest;
    case Any => assert p[0] == '?' && p[1..] == rest;
    case Escaped(c) => assert p[0] == '\\' && p[1] == c && p[2..] == rest;
    case Set(negated, items) =>
      SetClosed(negated, items, rest, s);
  }

  /** The pieces read the text from position i on, a character each. */
  predicate ReadAt(xs: seq<Piece>, s: string, i: nat) {
    i + |xs| <= |s| && forall j | 0 <= j < |xs| :: Reads(xs[j], s[i + j])
  }

  lemma ReadFirst(xs: seq<Piece>, s: string)
    requires xs != [] && s != []
    ensures ReadAt(xs, s, 0) <==> Reads(xs[0], s[0]) && ReadAt(xs[1..], s[1..], 0)
  {
    var ys, t := xs[1..], s[1..];
    if ReadAt(xs, s, 0) {
      assert Reads(xs[0], s[0 + 0]);
      forall j | 0 <= j < |ys| ensures Reads(ys[j], t[0 + j]) { assert Reads(xs[j + 1], s[0 + (j + 1)]); }
    }
    if Reads(xs[0], s[0]) && ReadAt(ys, t, 0) {
      forall j | 0 <= j < |xs| ensures Reads(xs[j], s[0 + j]) {
        if j > 0 { assert Reads(ys[j - 1], t[0 + (j - 1)]); }
      }
    }
  }

  lemma {:induction false} PiecesExact(xs: seq<Piece>, rest: string, s: string)
    requires PiecesOk(xs)
    ensures Match(Text(xs) + rest, s) <==> ReadAt(xs, s, 0) && Match(rest, s[|xs|..])
    decreases |xs|
  {
    if xs == [] {
      assert Text(xs) + rest == rest && s[0..] == s;
    } else {
      assert Text(xs) + rest == PieceText(xs[0]) + (Text(xs[1..]) + rest);
      PieceExact(xs[0], Text(xs[1..]) + rest, s);
      if s != [] {
        PiecesExact(xs[1..], rest, s[1..]);
        ReadFirst(xs, s);
        assert |xs| <= |s| ==> s[1..][|xs[1..]|..] == s[|xs|..];
      }
    }
  }

  lemma ReadShift(xs: seq<Piece>, s: string, i: nat)
    requires i <= |s|
    ensures ReadAt(xs, s[i..], 0) <==> ReadAt(xs, s, i)
  {
    var t := s[i..];
    if ReadAt(xs, t, 0) {
      forall j | 0 <= j < |xs| ensures Reads(xs[j], s[i + j]) { assert Reads(xs[j], t[0 + j]) && t[j] == s[i + j]; }
    }
    if ReadAt(xs, s, i) {
      forall j | 0 <= j < |xs| ensures Reads(xs[j], t[0 + j]) { assert Reads(xs[j], s[i + j]) && t[j] == s[i + j]; }
    }
  }

  /** The pieces read the text from i on, and the rest of the pattern what follows. */
  predicate ReadsThen(xs: seq<Piece>, rest: string, s: string, i: nat) {
    ReadAt(xs, s, i) && Match(rest, s[i + |xs|..])
  }

  lemma MatchesAtExactly(xs: seq<Piece>, rest: string, s: string, i: nat)
    requires PiecesOk(xs)
    ensures MatchesFrom(Text(xs) + rest, s, i) <==> ReadsThen(xs, rest, s, i)
  {
    if i <= |s| {
      PiecesExact(xs, rest, s[i..]);
      ReadShift(xs, s, i);
      assert i + |xs| <= |s| ==> s[i..][|xs|..] == s[i + |xs|..];
    }
  }

  /** How a purge pattern over these pieces is read: "cdn:", anything, the pieces, and the rest of the pattern. */
  lemma PatternExact(xs: seq<Piece>, rest: string, s: string)
    requires PiecesOk(xs)
    ensures Match("cdn:" + (['*'] + (Text(xs) + rest)), s) <==>
            "cdn:" <= s && exists i: nat :: ReadsThen(xs, rest, s[4..], i)
  {
    LiteralExact("cdn:", ['*'] + (Text(xs) + rest), s);
    if "cdn:" <= s {
      var r := s[4..];
      StarExact(Text(xs) + rest, r);
      forall i: nat ensures MatchesFrom(Text(xs) + rest, r, i) <==> ReadsThen(xs, rest, r, i) {
        MatchesAtExactly(xs, rest, r, i);
      }
      if i: nat :| MatchesFrom(Text(xs) + rest, r, i) { assert ReadsThen(xs, rest, r, i); }
      if i: nat :| ReadsThen(xs, rest, r, i) { assert MatchesFrom(Text(xs) + rest, r, i); }
    }
  }

  lemma StarMatchesAll(s: string)
    ensures Match(['*'], s)
  {
    StarSwallows([], s, []);
    assert s + [] == s && ['*'] + [] == ['*'];
  }

  /** A file is written down by these pieces: its bucket and key are their text. */
  predicate WrittenBy(bucket: string, key: string, xs: seq<Piece>) {
    PiecesOk(xs) && bucket + ['/'] + key == Text(xs)
  }

  lemma BuildText(bucket: string, key: string, text: string)
    requires key != "" && bucket + ['/'] + key == text
    ensures Build(bucket, key, "") == "cdn:" + (['*'] + ([':'] + text + ['*']))
  {
    assert bucket + ['/'] + key + ['*'] == text + ['*'];
    assert "cdn:*:" + (text + ['*']) == "cdn:" + (['*'] + ([':'] + text + ['*']));
  }

  lemma ColonFirst(xs: seq<Piece>)
    ensures Text([Char(':')] + xs) == [':'] + Text(xs)
    ensures PiecesOk(xs) ==> PiecesOk([Char(':')] + xs)
  {
    assert ([Char(':')] + xs)[1..] == xs;
  }

  lemma ThenAnything(xs: seq<Piece>, s: string, i: nat)
    ensures ReadsThen(xs, ['*'], s, i) <==> ReadAt(xs, s, i)
  {
    if ReadAt(xs, s, i) { StarMatchesAll(s[i + |xs|..]); }
  }

  /** What the pattern for such a file matches. */
  lemma FilePatternExact(bucket: string, key: string, xs: seq<Piece>, s: string)
    requires key != "" && WrittenBy(bucket, key, xs)
    ensures Match(Build(bucket, key, ""), s) <==>
            "cdn:" <= s && exists i: nat :: ReadAt([Char(':')] + xs, s[4..], i)
  {
    var ys := [Char(':')] + xs;
    ColonFirst(xs);
    BuildText(bucket, key, Text(xs));
    PatternExact(ys, ['*'], s);
    if "cdn:" <= s {
      var r := s[4..];
      forall i: nat ensures ReadsThen(ys, ['*'], r, i) <==> ReadAt(ys, r, i) { ThenAnything(ys, r, i); }
      if i: nat :| ReadsThen(ys, ['*'], r, i) { assert ReadAt(ys, r, i); }
      if i: nat :| ReadAt(ys, r, i) { assert ReadsThen(ys, ['*'], r, i); }
    }
  }

  lemma KeyAfterCdn(region: string, bucket: string, key: string, es: seq<Entry>)
    ensures "cdn:" <= BuildKey(region, bucket, key, es)
  {
    assert BuildKey(region, bucket, key, es) == "cdn:" + (region + [':'] + bucket + ['/'] + key + Suffix(es));
  }

  /**
   For bucket and key of any characters, escapes and classes, stars excepted, the
   file's own key is covered by its own pattern exactly when the pieces of the pattern
   read the key's text after some later colon.
   */
  lemma OwnKeyCoveredExactly(region: string, bucket: string, key: string, xs: seq<Piece>, es: seq<Entry>)
    requires key != "" && WrittenBy(bucket, key, xs)
    ensures var s := BuildKey(region, bucket, key, es);
            "cdn:" <= s &&
            (Match(Build(bucket, key, ""), s) <==> exists i: nat :: ReadAt([Char(':')] + xs, s[4..], i))
  {
    KeyAfterCdn(region, bucket, key, es);
    FilePatternExact(bucket, key, xs, BuildKey(region, bucket, key, es));
  }

  lemma HeadOfConcat(a: seq<Item>, b: seq<Item>)
    requires a != []
    ensures (a + b)[0] == a[0] && (a + b)[1..] == a[1..] + b
  {
  }

  lemma Associate(a: string, b: string, c: string)
    ensures a + (b + c) == a + b + c
  {
  }

  lemma {:induction false} ItemsConcat(a: seq<Item>, b: seq<Item>)
    ensures ItemsText(a + b) == ItemsText(a) + ItemsText(b)
  {
    if a == [] {
      assert a + b == b;
    } else {
      ItemsConcat(a[1..], b);
      HeadOfConcat(a, b);
      Associate(ItemText(a[0]), ItemsText(a[1..]), ItemsText(b));
    }
  }

  lemma OpenText(negated: bool, items: seq<Item>)
    ensures SetText(negated, items) + ['*'] == SetText(negated, items + [One('*')])
  {
    ItemsConcat(items, [One('*')]);
    assert [One('*')][1..] == [] && ItemsText([One('*')]) == ['*'];
  }

  /** An open class at the end of a pattern reads the last character. */
  lemma OpenReadsLast(negated: bool, items: seq<Item>, s: string)
    requires ItemsOk(negated, items)
    ensures Match(SetText(negated, items), s) <==> |s| == 1 && Reads(Set(negated, items), s[0])
  {
    SetExact(negated, items, [], s);
    assert SetText(negated, items) + [] == SetText(negated, items);
    if s != [] { assert s[1..] == [] <==> |s| == 1; }
  }

  /** The pieces read the text from i on, and the last one its last character. */
  predicate ReadsToEnd(xs: seq<Piece>, last: Piece, s: string, i: nat) {
    ReadAt(xs, s, i) && i + |xs| + 1 == |s| && Reads(last, s[|s| - 1])
  }

  lemma ThenOpen(xs: seq<Piece>, negated: bool, items: seq<Item>, s: string, i: nat)
    requires ItemsOk(negated, items)
    ensures ReadsThen(xs, SetText(negated, items), s, i) <==> ReadsToEnd(xs, Set(negated, items), s, i)
  {
    if ReadAt(xs, s, i) { OpenReadsLast(negated, items, s[i + |xs|..]); }
  }

  lemma UnclosedText(bucket: string, key: string, xs: seq<Piece>, negated: bool, items: seq<Item>)
    requires key != "" && bucket + ['/'] + key == Text(xs) + SetText(negated, items)
    ensures Build(bucket, key, "")
            == "cdn:" + (['*'] + (Text([Char(':')] + xs) + SetText(negated, items + [One('*')])))
  {
    ColonFirst(xs);
    OpenText(negated, items);
    BuildText(bucket, key, Text(xs) + SetText(negated, items));
    Open4(Text(xs), SetText(negated, items));
  }

  lemma Open4(t: string, u: string)
    ensures [':'] + (t + u) + ['*'] == [':'] + t + (u + ['*'])
  {
  }

  /**
   A bracket that is not closed takes in the star at the end of the pattern: such a
   file's pattern matches only keys that end where its pieces do.
   */
  lemma UnclosedMatchesEndsOnly(bucket: string, key: string, xs: seq<Piece>, negated: bool, items: seq<Item>, s: string)
    requires key != "" && PiecesOk(xs) && ItemsOk(negated, items)
    requires bucket + ['/'] + key == Text(xs) + SetText(negated, items)
    ensures var last := Set(negated, items + [One('*')]);
            Match(Build(bucket, key, ""), s) <==>
            "cdn:" <= s && (exists i: nat :: ReadsToEnd([Char(':')] + xs, last, s[4..], i))
  {
    var ys, all := [Char(':')] + xs, items + [One('*')];
    ColonFirst(xs);
    UnclosedText(bucket, key, xs, negated, items);
    PatternExact(ys, SetText(negated, all), s);
    if "cdn:" <= s {
      var r := s[4..];
      forall i: nat
        ensures ReadsThen(ys, SetText(negated, all), r, i) <==> ReadsToEnd(ys, Set(negated, all), r, i)
      {
        ThenOpen(ys, negated, all, r, i);
      }
      if i: nat :| ReadsThen(ys, SetText(negated, all), r, i) { assert ReadsToEnd(ys, Set(negated, all), r, i); }
      if i: nat :| ReadsToEnd(ys, Set(negated, all), r, i) { assert ReadsThen(ys, SetText(negated, all), r, i); }
    }
  }

  lemma NoMiddle(key: string, last: Piece)
    requires key != [] && key[0] != 'x' && ':' !in key && forall c :: Reads(last, c) ==> c == 'x'
    ensures forall i: nat :: !ReadAt([Char(':'), Char('b'), Char('/'), last], ['r', ':', 'b', '/'] + key, i)
  {
    var xs, s := [Char(':'), Char('b'), Char('/'), last], ['r', ':', 'b', '/'] + key;
    assert forall i | 4 <= i < |s| :: s[i] == key[i - 4];
    forall i: nat ensures !ReadAt(xs, s, i) { ReadEnds(xs, s, i); }
  }

  /** Where pieces read text the first and the last do. */
  lemma ReadEnds(xs: seq<Piece>, s: string, i: nat)
    requires xs != []
    ensures ReadAt(xs, s, i) ==>
              i + |xs| <= |s| && Reads(xs[0], s[i]) && Reads(xs[|xs| - 1], s[i + |xs| - 1])
  {
    if ReadAt(xs, s, i) {
      assert Reads(xs[0], s[i + 0]) && Reads(xs[|xs| - 1], s[i + (|xs| - 1)]);
    }
  }

  lemma TextOfThree(x: Piece, y: Piece, z: Piece)
    ensures Text([x, y, z]) == PieceText(x) + (PieceText(y) + PieceText(z))
  {
    assert [x, y, z][1..] == [y, z] && [y, z][1..] == [z] && [z][1..] == [];
    assert Text([z]) == PieceText(z) + [] == PieceText(z);
  }

  /** A key whose one piece reads an 'x' and nothing else, and that does not start with one, escapes its pattern. */
  lemma MissesItself(key: string, last: Piece)
    requires key != [] && key[0] != 'x' && ':' !in key && PieceOk(last) && PieceText(last) == key
    requires forall c :: Reads(last, c) ==> c == 'x'
    ensures !Match(Build(['b'], key, ""), BuildKey(['r'], ['b'], key, []))
  {
    var xs, s := [Char('b'), Char('/'), last], BuildKey(['r'], ['b'], key, []);
    TextOfThree(Char('b'), Char('/'), last);
    assert ['b'] + ['/'] + key == ['b'] + (['/'] + key);
    OwnKeyCoveredExactly(['r'], ['b'], key, xs, []);
    assert [Char(':')] + xs == [Char(':'), Char('b'), Char('/'), last];
    assert s[4..] == ['r', ':', 'b', '/'] + key;
    NoMiddle(key, last);
  }

  /** So the pattern for the key "[x]" does not match that key, nor does that for a backslash and an "x". */
  lemma BracketsEscape(key: string)
    requires key == ['[', 'x', ']'] || key == ['\\', 'x']
    ensures !Match(Build(['b'], key, ""), BuildKey(['r'], ['b'], key, []))
  {
    var bracketed := Set(false, [One('x')]);
    assert [One('x')][1..] == [] && ItemsText([One('x')]) == ['x'];
    MissesItself(key, if key[0] == '[' then bracketed else Escaped('x'));
  }
}
