/**
 How far an invalidation event reaches: which memory entries it takes, that it takes
 nothing else, and when it spares the entries of other files.
 */
module CdnPurge {
  import opened Wrappers
  import opened CdnKey
  import opened CdnCache
  import Strings

  // ------------------------------------------- the entries it takes

  predicate OccursFrom(text: string, s: string, i: nat) { i + |text| <= |s| && s[i..i + |text|] == text }

  ghost predicate Occurs(text: string, s: string) { exists i: nat :: OccursFrom(text, s, i) }

  lemma IncludesOccurs(s: string, text: string)
    ensures Includes(s, text) <==> Occurs(text, s)
  {
    if Includes(s, text) {
      var i :| 0 <= i <= |s| - |text| && text <= s[i..];
      assert s[i..i + |text|] == s[i..][..|text|];
      assert OccursFrom(text, s, i);
    }
    if Occurs(text, s) {
      var i: nat :| OccursFrom(text, s, i);
      assert s[i..][..|text|] == text;
    }
  }

  /**
   The event names the entry: its file's text between colons where it gives a file,
   else its bucket's, and no entry where it gives neither.  A bucket that is absent
   beside a file reads "undefined".
   */
  ghost predicate Named(cacheKey: string, target: Option<string>, file: Option<string>) {
    match file
    case Some(f) =>
      if f == "" then BucketNamed(cacheKey, target)
      else Occurs(":" + (if target.Some? then target.value else "undefined") + ":" + f + ":", cacheKey)
    case None => BucketNamed(cacheKey, target)
  }

  ghost predicate BucketNamed(cacheKey: string, target: Option<string>) {
    target.Some? && target.value != "" && Occurs(":" + target.value + ":", cacheKey)
  }

  /** The event deletes the memory entries it names and changes nothing else. */
  lemma InvalidationExact(cfg: Config, world: World, es: seq<Event>, target: Option<string>, file: Option<string>)
    ensures var st, after := After(cfg, world, es), After(cfg, world, es + [Invalidate(target, file)]);
            after.redis == st.redis && after.pending == st.pending &&
            forall k ::
              (k in after.memory <==> k in st.memory && !Named(k, target, file)) &&
              (k in after.memory ==> after.memory[k] == st.memory[k])
  {
    OnwardConcat(cfg, world, EMPTY, es, [Invalidate(target, file)]);
    OneStep(cfg, world, After(cfg, world, es), Invalidate(target, file));
    TakesNamed(After(cfg, world, es), target, file);
  }

  lemma FilterIsNamed(k: string, target: Option<string>, file: Option<string>)
    ensures Named(k, target, file) <==>
              FilterText(target, file).Some? && Includes(k, FilterText(target, file).value)
  {
    if Truthy(file) {
      IncludesOccurs(k, ":" + Printed(target) + ":" + file.value + ":");
    } else if Truthy(target) {
      IncludesOccurs(k, ":" + target.value + ":");
    }
  }

  lemma TakesNamed(st: State, target: Option<string>, file: Option<string>)
    ensures var after := InvalidateStep(st, target, file);
            after.redis == st.redis && after.pending == st.pending &&
            forall k ::
              (k in after.memory <==> k in st.memory && !Named(k, target, file)) &&
              (k in after.memory ==> after.memory[k] == st.memory[k])
  {
    forall k
      ensures k in InvalidateStep(st, target, file).memory <==> k in st.memory && !Named(k, target, file)
    {
      FilterIsNamed(k, target, file);
    }
  }

  // ------------------------------------------- the entries of other files

  /** Every colon comes right after a quote. */
  predicate ColonsQuoted(s: string) { forall i | 0 <= i < |s| && s[i] == ':' :: i > 0 && s[i - 1] == '"' }

  lemma ColonsQuotedConcat(a: string, b: string)
    requires ColonsQuoted(a) && ColonsQuoted(b)
    ensures ColonsQuoted(a + b)
  {
    forall i | 0 <= i < |a + b| && (a + b)[i] == ':' ensures i > 0 && (a + b)[i - 1] == '"' {
      if i >= |a| { assert b[i - |a|] == ':'; }
    }
  }

  predicate ColonFree(s: string) { forall i | 0 <= i < |s| :: s[i] != ':' }

  lemma {:induction false} EscapedColonFree(s: string)
    requires ColonFree(s)
    ensures ColonFree(EscapeAll(s))
  {
    if s != [] {
      EscapedColonFree(s[1..]);
      assert ColonFree(Escape(s[0]));
    }
  }

  lemma NumberColonFree(x: Number)
    ensures ColonFree(NumberText(x))
  {
    NumberTextShape(x);
    match x
    case NaN =>
    case Num(n) => DigitsColonFree(if n < 0 then -n else n);
  }

  lemma DigitsColonFree(n: nat)
    ensures ColonFree(NatText(n))
  {
    NatTextNumeral(n);
  }

  /** No text value holds a colon. */
  predicate PlainTexts(t: Transforms) {
    (t.fmt.Some? ==> ColonFree(t.fmt.value)) && (t.fit.Some? ==> ColonFree(t.fit.value))
  }

  predicate PlainMember(m: Member) {
    ColonFree(m.name) && (m.value.JStr? ==> ColonFree(m.value.text))
  }

  predicate AllPlain(ms: seq<Member>) { forall m | m in ms :: PlainMember(m) }

  lemma MemberColons(m: Member)
    requires PlainMember(m)
    ensures ColonsQuoted(MemberText(m))
  {
    var value := ScalarText(m.value);
    match m.value {
      case JNum(x) => NumberColonFree(x);
      case JStr(s) => EscapedColonFree(s);
    }
    assert ColonFree(value);
    var start := ['"'] + (m.name + ['"']);
    assert MemberText(m) == start + ([':'] + value);
  }

  lemma {:induction false} RestColons(ms: seq<Member>)
    requires AllPlain(ms)
    ensures ColonsQuoted(Rest(ms))
  {
    if ms != [] {
      MemberColons(ms[0]);
      RestColons(ms[1..]);
      ColonsQuotedConcat(MemberText(ms[0]), Rest(ms[1..]));
      ColonsQuotedConcat([','], MemberText(ms[0]) + Rest(ms[1..]));
    }
  }

  lemma MembersPlain(t: Transforms)
    requires PlainTexts(t)
    ensures AllPlain(Members(t))
  {
    assert AllPlain(NumberMember("w", t.w)) && AllPlain(NumberMember("h", t.h)) && AllPlain(TextMember("fmt", t.fmt));
    assert AllPlain(NumberMember("q", t.q)) && AllPlain(TextMember("fit", t.fit));
    BothPlain(NumberMember("q", t.q), TextMember("fit", t.fit));
    BothPlain(TextMember("fmt", t.fmt), NumberMember("q", t.q) + TextMember("fit", t.fit));
    BothPlain(NumberMember("h", t.h), TextMember("fmt", t.fmt) + (NumberMember("q", t.q) + TextMember("fit", t.fit)));
    BothPlain(NumberMember("w", t.w), NumberMember("h", t.h) +
      (TextMember("fmt", t.fmt) + (NumberMember("q", t.q) + TextMember("fit", t.fit))));
  }

  lemma BothPlain(a: seq<Member>, b: seq<Member>)
    requires AllPlain(a) && AllPlain(b)
    ensures AllPlain(a + b)
  {
  }

  /** In the JSON text of parameters whose texts hold no colon every colon comes after a name. */
  lemma TransformColons(t: Option<Transforms>)
    requires t.Some? ==> PlainTexts(t.value)
    ensures ColonsQuoted(TransformKey(t)) && TransformKey(t) != "" && TransformKey(t)[0] == '{'
  {
    if t.Some? {
      var ms := Members(t.value);
      MembersPlain(t.value);
      if ms != [] {
        MemberColons(ms[0]);
        RestColons(ms[1..]);
        ColonsQuotedConcat(MemberText(ms[0]), Rest(ms[1..]));
        ColonsQuotedConcat(['{'], MemberText(ms[0]) + Rest(ms[1..]));
      }
    }
  }

  /** The key before its parameters. */
  function Head(region: string, bucket: string, key: string): string {
    "cdn:" + region + ":" + bucket + ":" + key + ":"
  }

  lemma HeadParts(region: string, bucket: string, key: string)
    requires ':' !in region && ':' !in bucket && ':' !in key
    ensures Strings.Split(Head(region, bucket, key), ':') == ["cdn", region, bucket, key, ""]
  {
    var a := "cdn:" + region + ":" + bucket;
    assert Head(region, bucket, key) == a + [':'] + key + [':'] + "";
    Strings.SplitAt(a + [':'] + key, "", ':');
    Strings.SplitAt(a, key, ':');
    Strings.SplitAt("cdn:" + region, bucket, ':');
    assert "cdn:" + region == "cdn" + [':'] + region;
    Strings.SplitAt("cdn", region, ':');
    Strings.SplitPlain("cdn", ':');
    Strings.SplitPlain(region, ':');
    Strings.SplitPlain(bucket, ':');
    Strings.SplitPlain(key, ':');
  }

  lemma SplitAround(pre: string, b: string, k: string, suf: string)
    requires ':' !in b && ':' !in k
    ensures Strings.Split(pre + ":" + b + ":" + k + ":" + suf, ':')
            == Strings.Split(pre, ':') + [b, k] + Strings.Split(suf, ':')
  {
    Strings.SplitAt(pre + ":" + b + ":" + k, suf, ':');
    Strings.SplitAt(pre + ":" + b, k, ':');
    Strings.SplitAt(pre, b, ':');
    Strings.SplitPlain(b, ':');
    Strings.SplitPlain(k, ':');
  }

  function FileFilter(b: string, k: string): string { ":" + b + ":" + k + ":" }

  lemma CutOut(s: string, i: nat, text: string)
    requires OccursFrom(text, s, i)
    ensures s == s[..i] + text + s[i + |text|..]
  {
  }

  /** Before the parameters the text is that of the file, or of region and bucket. */
  lemma InHead(region: string, bucket: string, key: string, b: string, k: string)
    requires ':' !in region && ':' !in bucket && ':' !in key && ':' !in b && ':' !in k
    requires Occurs(FileFilter(b, k), Head(region, bucket, key))
    ensures (b, k) == (bucket, key) || (b, k) == (region, bucket)
  {
    var s := Head(region, bucket, key);
    var text := FileFilter(b, k);
    var i: nat :| OccursFrom(text, s, i);
    var pre, suf := s[..i], s[i + |text|..];
    CutOut(s, i, text);
    assert s == pre + text + suf == pre + ":" + b + ":" + k + ":" + suf;
    HeadParts(region, bucket, key);
    SplitAround(pre, b, k, suf);
    PartsOfHead(Strings.Split(pre, ':'), b, k, Strings.Split(suf, ':'), ["cdn", region, bucket, key, ""]);
  }

  lemma PartsOfHead(p: seq<string>, b: string, k: string, q: seq<string>, parts: seq<string>)
    requires p != [] && q != [] && |parts| == 5 && p + [b, k] + q == parts
    ensures (b, k) == (parts[1], parts[2]) || (b, k) == (parts[2], parts[3])
  {
    assert parts[|p|] == b && parts[|p| + 1] == k;
  }

  lemma QuoteBefore(head: string, json: string, p: nat)
    requires ColonsQuoted(json) && json != "" && json[0] == '{' && p < |head + json|
    ensures p >= |head| && (head + json)[p] == ':' ==> p > 0 && (head + json)[p - 1] == '"'
  {
    if p >= |head| { assert (head + json)[p] == json[p - |head|]; }
  }

  /** A colon of the parameters ends no filter text whose key does not end in a quote. */
  lemma NotInParameters(head: string, json: string, b: string, k: string, i: nat)
    requires ColonsQuoted(json) && json != "" && json[0] == '{' && k != "" && k[|k| - 1] != '"'
    requires OccursFrom(FileFilter(b, k), head + json, i)
    ensures i + |FileFilter(b, k)| <= |head|
  {
    var s, text := head + json, FileFilter(b, k);
    var last := i + |text| - 1;
    assert text[|text| - 1] == ':' && text[|text| - 2] == k[|k| - 1];
    assert s[last] == s[i..i + |text|][|text| - 1] && s[last - 1] == s[i..i + |text|][|text| - 2];
    QuoteBefore(head, json, last);
  }

  /**
   Of the files whose names and parameters hold no colon an event for one, whose key does
   not end in a quote, reaches that file alone, under all parameters; and where the region
   is named like its bucket, all files of the bucket that is named like its key.
   */
  lemma ReachExact(region: string, bucket: string, key: string, t: Option<Transforms>, b: string, k: string)
    requires ':' !in region && ':' !in bucket && ':' !in key && ':' !in b && ':' !in k
    requires (t.Some? ==> PlainTexts(t.value)) && k != "" && k[|k| - 1] != '"'
    ensures Named(CacheKey(region, bucket, key, t), Some(b), Some(k)) <==>
              (b, k) == (bucket, key) || (b, k) == (region, bucket)
  {
    var s, head, json := CacheKey(region, bucket, key, t), Head(region, bucket, key), TransformKey(t);
    HeadThenJson(region, bucket, key, json);
    TransformColons(t);
    assert Named(s, Some(b), Some(k)) <==> Occurs(FileFilter(b, k), s);
    if Occurs(FileFilter(b, k), s) {
      var text := FileFilter(b, k);
      var i: nat :| OccursFrom(text, s, i);
      NotInParameters(head, json, b, k, i);
      assert head[i..i + |text|] == s[i..i + |text|];
      assert OccursFrom(text, head, i);
      InHead(region, bucket, key, b, k);
    }
    if (b, k) == (bucket, key) || (b, k) == (region, bucket) { OccursInHead(region, bucket, key, json, b, k); }
  }

  lemma HeadThenJson(region: string, bucket: string, key: string, json: string)
    ensures "cdn:" + region + [':'] + (bucket + [':'] + (key + [':'] + json)) == Head(region, bucket, key) + json
  {
  }

  lemma OccursAt(before: string, text: string, after: string)
    ensures Occurs(text, before + text + after)
  {
    var s := before + text + after;
    assert s[|before|..|before| + |text|] == text;
    assert OccursFrom(text, s, |before|);
  }

  lemma OccursInHead(region: string, bucket: string, key: string, json: string, b: string, k: string)
    requires (b, k) == (bucket, key) || (b, k) == (region, bucket)
    ensures Occurs(FileFilter(b, k), Head(region, bucket, key) + json)
  {
    var s := Head(region, bucket, key) + json;
    if (b, k) == (bucket, key) {
      OccursAt("cdn:" + region, FileFilter(b, k), json);
      assert s == "cdn:" + region + FileFilter(b, k) + json;
    } else {
      OccursAt("cdn", FileFilter(b, k), key + ":" + json);
      assert s == "cdn" + FileFilter(b, k) + (key + ":" + json);
    }
  }
}
