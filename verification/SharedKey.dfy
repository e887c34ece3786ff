/**
 The shared package's cache key: the defined transform fields, sorted by name,
 printed `name=value` and joined with commas behind the file path.
 */
module SharedKey {
  import opened Wrappers
  import Strings

  /** One own entry of the transforms object; None is `undefined`, otherwise the value as a template prints it. */
  datatype Entry = Entry(name: string, value: Option<string>)

  datatype Field = Field(name: string, value: string)

  function Defined(es: seq<Entry>): seq<Field> {
    if es == [] then []
    else (if es[0].value.Some? then [Field(es[0].name, es[0].value.value)] else []) + Defined(es[1..])
  }

  function Insert(f: Field, s: seq<Field>): seq<Field> {
    if s == [] then [f]
    else if Strings.LexLe(f.name, s[0].name) then [f] + s
    else [s[0]] + Insert(f, s[1..])
  }

  /** The order of the field names, which are lower-case ASCII words, is that of their characters. */
  function Sort(s: seq<Field>): seq<Field> {
    if s == [] then [] else Insert(s[0], Sort(s[1..]))
  }

  function Print(f: Field): string { f.name + ['='] + f.value }

  function PrintAll(s: seq<Field>): seq<string> {
    if s == [] then [] else [Print(s[0])] + PrintAll(s[1..])
  }

  /** No transforms object and an empty one both give the empty suffix. */
  function Suffix(es: seq<Entry>): string {
    if es == [] then "" else [':'] + Strings.Join(PrintAll(Sort(Defined(es))), ',')
  }

  function BuildKey(region: string, bucket: string, key: string, es: seq<Entry>): string {
    "cdn:" + region + [':'] + bucket + ['/'] + key + Suffix(es)
  }

  // ------------------------------------------- sorting has one result

  predicate Sorted(s: seq<Field>) {
    forall i, j | 0 <= i < j < |s| :: Strings.LexLe(s[i].name, s[j].name)
  }

  predicate DistinctFields(s: seq<Field>) {
    forall i, j | 0 <= i < j < |s| :: s[i].name != s[j].name
  }

  /** An object has each name once. */
  predicate Proper(es: seq<Entry>) {
    forall i, j | 0 <= i < j < |es| :: es[i].name != es[j].name
  }

  function FieldSet(s: seq<Field>): set<Field> { set f | f in s }

  /** What the object says: its defined fields. */
  function Meaning(es: seq<Entry>): set<Field> { FieldSet(Defined(es)) }

  lemma {:induction false} DefinedFrom(es: seq<Entry>, f: Field)
    ensures f in Defined(es) <==> Entry(f.name, Some(f.value)) in es
  {
    if es != [] { DefinedFrom(es[1..], f); }
  }

  lemma {:induction false} DefinedDistinct(es: seq<Entry>)
    requires Proper(es)
    ensures DistinctFields(Defined(es))
  {
    if es != [] {
      DefinedDistinct(es[1..]);
      var s := Defined(es[1..]);
      forall i | 0 <= i < |s| ensures s[i].name != es[0].name {
        DefinedFrom(es[1..], s[i]);
        assert s[i] in s;
        var k :| 0 <= k < |es[1..]| && es[1..][k] == Entry(s[i].name, Some(s[i].value));
        assert es[k + 1].name != es[0].name;
      }
    }
  }

  lemma {:induction false} InsertKeeps(f: Field, s: seq<Field>)
    ensures |Insert(f, s)| == |s| + 1 && forall x :: x in Insert(f, s) <==> x == f || x in s
  {
    if s != [] && !Strings.LexLe(f.name, s[0].name) {
      InsertKeeps(f, s[1..]);
      assert s == [s[0]] + s[1..];
    }
  }

  lemma {:induction false} InsertSorts(f: Field, s: seq<Field>)
    requires Sorted(s)
    ensures Sorted(Insert(f, s))
  {
    if s != [] {
      if Strings.LexLe(f.name, s[0].name) {
        forall j | 0 <= j < |s| ensures Strings.LexLe(f.name, s[j].name) {
          if j > 0 { Strings.LexTransitive(f.name, s[0].name, s[j].name); }
        }
      } else {
        Strings.LexTotal(f.name, s[0].name);
        InsertSorts(f, s[1..]);
        InsertKeeps(f, s[1..]);
        var r := Insert(f, s[1..]);
        forall j | 0 <= j < |r| ensures Strings.LexLe(s[0].name, r[j].name) {
          assert r[j] in r;
        }
      }
    }
  }

  lemma {:induction false} InsertDistinct(f: Field, s: seq<Field>)
    requires DistinctFields(s) && forall x | x in s :: x.name != f.name
    ensures DistinctFields(Insert(f, s))
  {
    if s != [] && !Strings.LexLe(f.name, s[0].name) {
      InsertDistinct(f, s[1..]);
      InsertKeeps(f, s[1..]);
      var r := Insert(f, s[1..]);
      forall j | 0 <= j < |r| ensures r[j].name != s[0].name { assert r[j] in r; }
    }
  }

  lemma {:induction false} SortSorts(s: seq<Field>)
    ensures Sorted(Sort(s)) && |Sort(s)| == |s| && forall x :: x in Sort(s) <==> x in s
    ensures DistinctFields(s) ==> DistinctFields(Sort(s))
  {
    if s != [] {
      SortSorts(s[1..]);
      InsertSorts(s[0], Sort(s[1..]));
      InsertKeeps(s[0], Sort(s[1..]));
      assert s == [s[0]] + s[1..];
      if DistinctFields(s) {
        forall x | x in Sort(s[1..]) ensures x.name != s[0].name {
          var k :| 0 <= k < |s[1..]| && s[1..][k] == x;
          assert s[k + 1] == x;
        }
        InsertDistinct(s[0], Sort(s[1..]));
      }
    }
  }

  /** Fields with distinct names have one sorted order, so it does not matter which sort is used. */
  lemma {:induction false} SortedUnique(s: seq<Field>, t: seq<Field>)
    requires Sorted(s) && Sorted(t) && DistinctFields(s) && DistinctFields(t)
    requires FieldSet(s) == FieldSet(t)
    ensures s == t
  {
    if s == [] {
      assert forall i | 0 <= i < |t| :: t[i] in FieldSet(t);
    } else {
      assert s[0] in FieldSet(t);
      SameHead(s, t);
      TailSet(s);
      TailSet(t);
      SortedUnique(s[1..], t[1..]);
      assert s == [s[0]] + s[1..] && t == [t[0]] + t[1..];
    }
  }

  lemma SameHead(s: seq<Field>, t: seq<Field>)
    requires s != [] && t != [] && Sorted(s) && Sorted(t) && DistinctFields(t)
    requires FieldSet(s) == FieldSet(t)
    ensures s[0] == t[0]
  {
    assert s[0] in FieldSet(t) && t[0] in FieldSet(s);
    var i :| 0 <= i < |t| && t[i] == s[0];
    var j :| 0 <= j < |s| && s[j] == t[0];
    Strings.LexTotal(s[0].name, s[0].name);
    assert Strings.LexLe(t[0].name, t[i].name) by { if i == 0 { Strings.LexTotal(t[0].name, t[0].name); } }
    assert Strings.LexLe(s[0].name, s[j].name);
    Strings.LexAntisymmetric(s[0].name, t[0].name);
  }

  lemma TailSet(s: seq<Field>)
    requires s != [] && DistinctFields(s)
    ensures FieldSet(s[1..]) == FieldSet(s) - {s[0]}
  {
    assert s == [s[0]] + s[1..];
    assert s[0] !in s[1..] by {
      assert forall k | 0 <= k < |s[1..]| :: s[1..][k] == s[k + 1] && s[k + 1].name != s[0].name;
    }
  }

  lemma SortedFields(es: seq<Entry>)
    requires Proper(es)
    ensures var s := Sort(Defined(es)); Sorted(s) && DistinctFields(s) && FieldSet(s) == Meaning(es)
  {
    DefinedDistinct(es);
    SortSorts(Defined(es));
  }

  // ------------------------------------------- the key is canonical

  /** Two orderings of the same entries give the same key. */
  lemma OrderDoesNotMatter(region: string, bucket: string, key: string, es: seq<Entry>, fs: seq<Entry>)
    requires Proper(es) && Proper(fs) && multiset(es) == multiset(fs)
    ensures BuildKey(region, bucket, key, es) == BuildKey(region, bucket, key, fs)
  {
    assert es == [] <==> fs == [] by {
      assert |multiset(es)| == |es| && |multiset(fs)| == |fs|;
    }
    forall f ensures f in Meaning(es) <==> f in Meaning(fs) {
      DefinedFrom(es, f);
      DefinedFrom(fs, f);
      var e := Entry(f.name, Some(f.value));
      assert e in es <==> e in multiset(es);
      assert e in fs <==> e in multiset(fs);
    }
    SortedFields(es);
    SortedFields(fs);
    SortedUnique(Sort(Defined(es)), Sort(Defined(fs)));
  }

  predicate PlainField(f: Field) {
    ',' !in f.name && '=' !in f.name && ',' !in f.value && '=' !in f.value
  }

  lemma {:induction false} PrintAllAt(s: seq<Field>)
    ensures |PrintAll(s)| == |s| && forall i | 0 <= i < |s| :: PrintAll(s)[i] == Print(s[i])
  {
    if s != [] { PrintAllAt(s[1..]); }
  }

  lemma PrintAllPlain(s: seq<Field>)
    requires forall f | f in s :: PlainField(f)
    ensures |PrintAll(s)| == |s|
    ensures forall i | 0 <= i < |s| :: PrintAll(s)[i] == Print(s[i]) && ',' !in PrintAll(s)[i]
  {
    PrintAllAt(s);
    forall i | 0 <= i < |s| ensures ',' !in PrintAll(s)[i] { assert s[i] in s; }
  }

  /** The printed list can be parsed back. */
  lemma TextInjective(s: seq<Field>, t: seq<Field>)
    requires forall f | f in s :: PlainField(f)
    requires forall f | f in t :: PlainField(f)
    requires Strings.Join(PrintAll(s), ',') == Strings.Join(PrintAll(t), ',')
    ensures s == t
  {
    PrintAllPlain(s);
    PrintAllPlain(t);
    var p, q := PrintAll(s), PrintAll(t);
    JoinEmpty(p);
    JoinEmpty(q);
    if s != [] && t != [] {
      Strings.SplitJoin(p, ',');
      Strings.SplitJoin(q, ',');
      forall i | 0 <= i < |s| ensures s[i] == t[i] {
        assert Print(s[i]) == p[i] == q[i] == Print(t[i]);
        assert s[i] in s && t[i] in t;
        Strings.FirstSeparator(s[i].name, s[i].value, t[i].name, t[i].value, '=');
      }
    }
  }

  lemma JoinEmpty(parts: seq<string>)
    requires forall i | 0 <= i < |parts| :: parts[i] != []
    ensures Strings.Join(parts, ',') == [] <==> parts == []
  {
  }

  /**
   For objects whose names and printed values hold no comma and no equals sign,
   two suffixes are equal exactly when both objects are empty or neither is, and
   they define the same fields with the same values.
   */
  lemma SuffixExact(es: seq<Entry>, fs: seq<Entry>)
    requires Proper(es) && Proper(fs)
    requires forall f | f in Meaning(es) + Meaning(fs) :: PlainField(f)
    ensures Suffix(es) == Suffix(fs) <==> (es == [] <==> fs == []) && Meaning(es) == Meaning(fs)
  {
    SortedFields(es);
    SortedFields(fs);
    var s, t := Sort(Defined(es)), Sort(Defined(fs));
    assert forall f | f in s :: f in FieldSet(s);
    assert forall f | f in t :: f in FieldSet(t);
    if es != [] && fs != [] {
      if Suffix(es) == Suffix(fs) {
        assert Suffix(es)[1..] == Strings.Join(PrintAll(s), ',');
        assert Suffix(fs)[1..] == Strings.Join(PrintAll(t), ',');
        TextInjective(s, t);
      }
      if Meaning(es) == Meaning(fs) { SortedUnique(s, t); }
    }
  }

  lemma {:induction false} PrintedFields(s: seq<Field>)
    ensures |PrintAll(s)| == |s| && forall i | 0 <= i < |s| :: PrintAll(s)[i] == s[i].name + "=" + s[i].value
  {
    if s != [] { PrintedFields(s[1..]); }
  }

  /**
   The key is the file's path and, where there is a transforms object, behind a colon
   its defined fields in the order of their names, each as `name=value`.
   */
  lemma KeyIsSortedFields(region: string, bucket: string, key: string, es: seq<Entry>)
    returns (fields: seq<Field>, parts: seq<string>)
    requires Proper(es)
    ensures Sorted(fields) && DistinctFields(fields) && FieldSet(fields) == Meaning(es)
    ensures |parts| == |fields| && forall i | 0 <= i < |parts| :: parts[i] == fields[i].name + "=" + fields[i].value
    ensures BuildKey(region, bucket, key, es) ==
              "cdn:" + region + ":" + bucket + "/" + key + if es == [] then "" else ":" + Strings.Join(parts, ',')
  {
    fields := Sort(Defined(es));
    parts := PrintAll(fields);
    DefinedDistinct(es);
    SortSorts(Defined(es));
    PrintedFields(fields);
  }
}
