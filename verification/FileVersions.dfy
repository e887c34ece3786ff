/**
 File versions: one row per uploaded version, of which one is the latest.  An
 upload demotes the latest row it finds and inserts the next version; a delete
 removes whichever row of the file the database returns; and a completed multipart
 upload inserts a row that takes the defaults, version 1 and the latest.
 */
module FileVersions {
  import opened Wrappers

  datatype Row = Row(bucket: string, key: string, version: int, isLatest: bool)

  /** The table, by row id. */
  type Table = map<string, Row>

  predicate OfFile(r: Row, bucket: string, key: string) { r.bucket == bucket && r.key == key }

  predicate LatestOf(r: Row, bucket: string, key: string) { OfFile(r, bucket, key) && r.isLatest }

  /** `found` is what `findOne` returned: some row that matches, or nothing when none does. */
  datatype Event =
    | Upload(bucket: string, key: string, id: string, found: Option<string>, insertOk: bool)
    | Delete(bucket: string, key: string, found: Option<string>)
    | Assembled(bucket: string, key: string, id: string)

  function FoundBy(e: Event): Option<string> { if e.Assembled? then None else e.found }

  predicate Inserts(e: Event) { e.Upload? || e.Assembled? }

  /** Row ids are fresh. */
  predicate NewId(t: Table, e: Event) { Inserts(e) ==> e.id !in t }

  predicate Answers(t: Table, e: Event) {
    match e
    case Upload(b, k, _, found, _) =>
      if found.Some? then found.value in t && LatestOf(t[found.value], b, k)
      else forall i | i in t :: !LatestOf(t[i], b, k)
    case Delete(b, k, found) =>
      if found.Some? then found.value in t && OfFile(t[found.value], b, k)
      else forall i | i in t :: !OfFile(t[i], b, k)
    case Assembled(_, _, _) => true
  }

  /** The demotion and the insertion are two separate saves; the second may fail. */
  function UploadStep(t: Table, e: Event): Table
    requires e.Upload? && (e.found.Some? ==> e.found.value in t)
  {
    var demoted := if e.found.Some? then t[e.found.value := t[e.found.value].(isLatest := false)] else t;
    var version := if e.found.Some? then t[e.found.value].version + 1 else 1;
    if e.insertOk then demoted[e.id := Row(e.bucket, e.key, version, true)] else demoted
  }

  function Step(t: Table, e: Event): Table
    requires FoundBy(e).Some? ==> FoundBy(e).value in t
  {
    match e
    case Upload(_, _, _, _, _) => UploadStep(t, e)
    case Delete(_, _, found) => if found.Some? then t - {found.value} else t
    case Assembled(b, k, id) => t[id := Row(b, k, 1, true)]
  }

  /** The tables of a run, provided the database answered each query from the table it had. */
  predicate Legal(es: seq<Event>) {
    es == [] ||
    (Legal(es[..|es| - 1]) &&
     Answers(After(es[..|es| - 1]), es[|es| - 1]) &&
     NewId(After(es[..|es| - 1]), es[|es| - 1]))
  }

  function After(es: seq<Event>): Table {
    if es == [] then map[] else
      var t := After(es[..|es| - 1]);
      var e := es[|es| - 1];
      if FoundBy(e).Some? && FoundBy(e).value !in t then t else Step(t, e)
  }

  // ------------------------------------------- one latest row

  ghost predicate OneLatest(t: Table, b: string, k: string) {
    forall i, j | i in t && j in t && LatestOf(t[i], b, k) && LatestOf(t[j], b, k) :: i == j
  }

  predicate NoLatest(t: Table, b: string, k: string) { forall i | i in t :: !LatestOf(t[i], b, k) }

  /** A multipart upload of the file completes only while the file has no latest row. */
  predicate Lone(t: Table, e: Event, b: string, k: string) {
    e.Assembled? && e.bucket == b && e.key == k ==> NoLatest(t, b, k)
  }

  predicate AllLone(es: seq<Event>, b: string, k: string) {
    es == [] || (AllLone(es[..|es| - 1], b, k) && Lone(After(es[..|es| - 1]), es[|es| - 1], b, k))
  }

  /** The file has at most one latest row after each event of the run. */
  ghost predicate OneLatestThroughout(es: seq<Event>, b: string, k: string) {
    es == [] || (OneLatestThroughout(es[..|es| - 1], b, k) && OneLatest(After(es), b, k))
  }

  lemma UploadOneLatest(t: Table, e: Event, b: string, k: string)
    requires OneLatest(t, b, k) && Answers(t, e) && e.Upload? && e.id !in t
    ensures OneLatest(UploadStep(t, e), b, k)
  {
    var t' := UploadStep(t, e);
    forall i | i in t' && LatestOf(t'[i], b, k)
      ensures i == e.id || (i in t && LatestOf(t[i], b, k) && e.found != Some(i))
    {
    }
  }

  lemma StepOneLatestExactly(t: Table, e: Event, b: string, k: string)
    requires OneLatest(t, b, k) && Answers(t, e) && NewId(t, e)
    ensures OneLatest(Step(t, e), b, k) <==> Lone(t, e, b, k)
  {
    match e
    case Upload(_, _, _, _, _) => UploadOneLatest(t, e, b, k);
    case Delete(_, _, _) =>
    case Assembled(_, _, id) =>
      var t' := Step(t, e);
      if e.bucket == b && e.key == k {
        assert LatestOf(t'[id], b, k);
        if l :| l in t && LatestOf(t[l], b, k) { assert l in t' && t'[l] == t[l] && l != id; }
      }
  }

  /**
   At every moment of a run at most one row of a file is marked latest, if and only
   if no multipart upload of it completes while it has a latest row.
   */
  lemma {:induction false} AlwaysOneLatest(es: seq<Event>, b: string, k: string)
    requires Legal(es)
    ensures OneLatestThroughout(es, b, k) <==> AllLone(es, b, k)
    ensures AllLone(es, b, k) ==> OneLatest(After(es), b, k)
  {
    if es != [] {
      var p, e := es[..|es| - 1], es[|es| - 1];
      AlwaysOneLatest(p, b, k);
      if AllLone(p, b, k) { StepOneLatestExactly(After(p), e, b, k); }
    }
  }

  // ------------------------------------------- versions

  ghost predicate DistinctVersions(t: Table, b: string, k: string) {
    forall i, j | i in t && j in t && OfFile(t[i], b, k) && OfFile(t[j], b, k) && i != j ::
      t[i].version != t[j].version
  }

  predicate NoRows(t: Table, b: string, k: string) { forall i | i in t :: !OfFile(t[i], b, k) }

  /** Row l is the file's latest and has its greatest version; all versions are positive. */
  predicate Tops(t: Table, b: string, k: string, l: string) {
    l in t && LatestOf(t[l], b, k) && forall i | i in t && OfFile(t[i], b, k) :: 1 <= t[i].version <= t[l].version
  }

  /** The versions of a file are positive and distinct, and the greatest, if there is one, is the latest. */
  ghost predicate Ordered(t: Table, b: string, k: string) {
    DistinctVersions(t, b, k) && (NoRows(t, b, k) || exists l :: Tops(t, b, k, l))
  }

  /** And at most one row is the latest. */
  ghost predicate InOrder(t: Table, b: string, k: string) { OneLatest(t, b, k) && Ordered(t, b, k) }

  /**
   An upload that demoted a row inserts one, a delete takes the latest row only when
   the file has no other, and a multipart upload completes only as the file's first.
   */
  predicate Harmless(t: Table, e: Event, b: string, k: string) {
    e.bucket == b && e.key == k ==>
      match e
      case Upload(_, _, _, found, insertOk) => found.Some? ==> insertOk
      case Delete(_, _, found) =>
        found.Some? && found.value in t && t[found.value].isLatest ==> OnlyRow(t, found.value, b, k)
      case Assembled(_, _, _) => NoRows(t, b, k)
  }

  predicate OnlyRow(t: Table, id: string, b: string, k: string) {
    forall i | i in t && OfFile(t[i], b, k) :: i == id
  }

  predicate AllHarmless(es: seq<Event>, b: string, k: string) {
    es == [] ||
    (AllHarmless(es[..|es| - 1], b, k) && Harmless(After(es[..|es| - 1]), es[|es| - 1], b, k))
  }

  /** The versions of the file are in order after each event of the run. */
  ghost predicate OrderedThroughout(es: seq<Event>, b: string, k: string) {
    es == [] || (OrderedThroughout(es[..|es| - 1], b, k) && InOrder(After(es), b, k))
  }

  /** The row an upload finds is the greatest, and it finds none only if the file has none. */
  lemma FindsTop(t: Table, e: Event)
    requires InOrder(t, e.bucket, e.key) && Answers(t, e) && e.Upload?
    ensures if e.found.Some? then Tops(t, e.bucket, e.key, e.found.value) else NoRows(t, e.bucket, e.key)
  {
    if !NoRows(t, e.bucket, e.key) {
      var l :| Tops(t, e.bucket, e.key, l);
      assert e.found == Some(l);
    }
  }

  /** After an upload the file has the rows it had, with their versions, and one with a greater version. */
  lemma UploadRows(t: Table, e: Event, id: string)
    requires InOrder(t, e.bucket, e.key) && Answers(t, e) && e.Upload? && e.insertOk && e.id !in t
    requires id in UploadStep(t, e) && OfFile(UploadStep(t, e)[id], e.bucket, e.key)
    ensures var t' := UploadStep(t, e);
            LatestOf(t'[e.id], e.bucket, e.key) && 1 <= t'[id].version <= t'[e.id].version &&
            (id != e.id ==> id in t && OfFile(t[id], e.bucket, e.key) &&
                            t[id].version == t'[id].version < t'[e.id].version)
  {
    FindsTop(t, e);
  }

  lemma UploadOrdered(t: Table, e: Event)
    requires InOrder(t, e.bucket, e.key) && Answers(t, e) && e.Upload? && e.insertOk && e.id !in t
    ensures Ordered(UploadStep(t, e), e.bucket, e.key)
  {
    var t', b, k := UploadStep(t, e), e.bucket, e.key;
    forall i | i in t' && OfFile(t'[i], b, k) ensures 1 <= t'[i].version <= t'[e.id].version {
      UploadRows(t, e, i);
    }
    assert Tops(t', b, k, e.id);
    forall i, j | i in t' && j in t' && OfFile(t'[i], b, k) && OfFile(t'[j], b, k) && i != j
      ensures t'[i].version != t'[j].version
    {
      UploadRows(t, e, i);
      UploadRows(t, e, j);
    }
  }

  /** Row i of the file is the same in both tables. */
  predicate SameRow(t: Table, t': Table, i: string) { i in t && i in t' && t'[i] == t[i] }

  /** Table t' has the file's rows of t but for some that are not the latest. */
  ghost predicate KeepsLatest(t: Table, t': Table, b: string, k: string) {
    (forall i | i in t' && OfFile(t'[i], b, k) :: SameRow(t, t', i)) &&
    forall i | i in t && LatestOf(t[i], b, k) :: SameRow(t, t', i)
  }

  lemma SubtableOrdered(t: Table, t': Table, b: string, k: string)
    requires Ordered(t, b, k) && KeepsLatest(t, t', b, k)
    ensures Ordered(t', b, k)
  {
    forall i, j | i in t' && j in t' && OfFile(t'[i], b, k) && OfFile(t'[j], b, k) && i != j
      ensures t'[i].version != t'[j].version
    {
      assert SameRow(t, t', i) && SameRow(t, t', j);
    }
    if NoRows(t, b, k) {
      assert forall i | i in t' && OfFile(t'[i], b, k) :: SameRow(t, t', i);
      assert NoRows(t', b, k);
    } else {
      var l :| Tops(t, b, k, l);
      assert SameRow(t, t', l);
      assert forall i | i in t' && OfFile(t'[i], b, k) :: SameRow(t, t', i);
      assert Tops(t', b, k, l);
    }
  }

  lemma DeleteOrdered(t: Table, e: Event, b: string, k: string)
    requires Ordered(t, b, k) && e.Delete? && Answers(t, e) && Harmless(t, e, b, k)
    ensures Ordered(Step(t, e), b, k)
  {
    var t' := Step(t, e);
    if e.found.Some? && LatestOf(t[e.found.value], b, k) {
      assert NoRows(t', b, k);
    } else {
      assert forall i | i in t' :: SameRow(t, t', i);
      SubtableOrdered(t, t', b, k);
    }
  }

  lemma OtherUploadOrdered(t: Table, e: Event, b: string, k: string)
    requires Ordered(t, b, k) && e.Upload? && Answers(t, e) && e.id !in t && !(e.bucket == b && e.key == k)
    ensures Ordered(UploadStep(t, e), b, k)
  {
    var t' := UploadStep(t, e);
    forall i | i in t' && OfFile(t'[i], b, k) ensures SameRow(t, t', i) {
      assert e.found != Some(i);
    }
    forall i | i in t && LatestOf(t[i], b, k) ensures SameRow(t, t', i) {
      assert e.found != Some(i);
    }
    SubtableOrdered(t, t', b, k);
  }

  /** With rows of the file left and none of them the latest, versions are out of order. */
  lemma NoLatestNoOrder(t: Table, b: string, k: string, id: string)
    requires id in t && OfFile(t[id], b, k) && forall i | i in t :: !LatestOf(t[i], b, k)
    ensures !Ordered(t, b, k)
  {
    assert !NoRows(t, b, k) && forall l :: !Tops(t, b, k, l);
  }

  lemma HarmIsDone(t: Table, e: Event, b: string, k: string)
    requires InOrder(t, b, k) && Answers(t, e) && NewId(t, e) && !Harmless(t, e, b, k)
    ensures !InOrder(Step(t, e), b, k)
  {
    var t' := Step(t, e);
    if e.Assembled? {
      var l :| Tops(t, b, k, l);
      StepOneLatestExactly(t, e, b, k);
    } else {
      var l := e.found.value;
      assert forall i | i in t' :: i in t && (i != l ==> t'[i] == t[i]);
      assert forall i | i in t && LatestOf(t[i], b, k) :: i == l;
      if e.Upload? {
        NoLatestNoOrder(t', b, k, l);
      } else {
        var j :| j in t && OfFile(t[j], b, k) && j != l;
        NoLatestNoOrder(t', b, k, j);
      }
    }
  }

  lemma AssembledOrdered(t: Table, e: Event, b: string, k: string)
    requires Ordered(t, b, k) && e.Assembled? && e.id !in t && Harmless(t, e, b, k)
    ensures Ordered(Step(t, e), b, k)
  {
    var t' := Step(t, e);
    if e.bucket == b && e.key == k {
      assert Tops(t', b, k, e.id);
    } else {
      forall i | i in t' && OfFile(t'[i], b, k) ensures SameRow(t, t', i) { assert i != e.id; }
      forall i | i in t && LatestOf(t[i], b, k) ensures SameRow(t, t', i) { assert i != e.id; }
      SubtableOrdered(t, t', b, k);
    }
  }

  lemma HarmlessIsLone(t: Table, e: Event, b: string, k: string)
    requires Harmless(t, e, b, k)
    ensures Lone(t, e, b, k)
  {
  }

  lemma StepOrderedExactly(t: Table, e: Event, b: string, k: string)
    requires InOrder(t, b, k) && Answers(t, e) && NewId(t, e)
    ensures InOrder(Step(t, e), b, k) <==> Harmless(t, e, b, k)
  {
    if !Harmless(t, e, b, k) {
      HarmIsDone(t, e, b, k);
    } else {
      HarmlessIsLone(t, e, b, k);
      StepOneLatestExactly(t, e, b, k);
      if e.Delete? {
        DeleteOrdered(t, e, b, k);
      } else if e.Assembled? {
        AssembledOrdered(t, e, b, k);
      } else if e.bucket == b && e.key == k {
        if e.insertOk { UploadOrdered(t, e); }
      } else {
        OtherUploadOrdered(t, e, b, k);
      }
    }
  }

  /**
   At every moment of a run the versions of a file are distinct and its one latest
   row has the greatest, if and only if every upload that demoted a row inserted one,
   every delete of the latest row was of the only row, and a multipart upload
   completed only where the file had no row.
   */
  lemma {:induction false} VersionsOrdered(es: seq<Event>, b: string, k: string)
    requires Legal(es)
    ensures OrderedThroughout(es, b, k) <==> AllHarmless(es, b, k)
    ensures AllHarmless(es, b, k) ==> InOrder(After(es), b, k)
  {
    if es != [] {
      var p, e := es[..|es| - 1], es[|es| - 1];
      VersionsOrdered(p, b, k);
      if AllHarmless(p, b, k) {
        StepOrderedExactly(After(p), e, b, k);
      }
    }
  }

  // ------------------------------------------- without deletes

  function Uploads(es: seq<Event>, b: string, k: string): nat {
    if es == [] then 0 else
      var e := es[|es| - 1];
      Uploads(es[..|es| - 1], b, k) + if e.Upload? && e.bucket == b && e.key == k then 1 else 0
  }

  predicate DeleteFree(es: seq<Event>, b: string, k: string) {
    forall i | 0 <= i < |es| && es[i].bucket == b && es[i].key == k :: es[i].Upload? && es[i].insertOk
  }

  /** The file has versions 1 .. n, each once, and version n is the latest. */
  ghost predicate Numbered(t: Table, b: string, k: string, n: nat) {
    (forall i | i in t && OfFile(t[i], b, k) ::
      1 <= t[i].version <= n && (t[i].isLatest <==> t[i].version == n)) &&
    (forall i, j | i in t && j in t && OfFile(t[i], b, k) && OfFile(t[j], b, k) ::
      t[i].version == t[j].version ==> i == j) &&
    forall v | 1 <= v <= n :: HasVersion(t, b, k, v)
  }

  ghost predicate HasVersion(t: Table, b: string, k: string, v: int) {
    exists i :: i in t && OfFile(t[i], b, k) && t[i].version == v
  }

  lemma UploadNumbered(t: Table, e: Event, b: string, k: string, n: nat)
    requires Numbered(t, b, k, n) && Answers(t, e) && e.Upload? && e.id !in t && e.insertOk
    requires e.bucket == b && e.key == k
    ensures Numbered(UploadStep(t, e), b, k, n + 1)
  {
    var t' := UploadStep(t, e);
    if n >= 1 {
      assert HasVersion(t, b, k, n);
      var l :| l in t && OfFile(t[l], b, k) && t[l].version == n;
      assert LatestOf(t[l], b, k);
    }
    assert t'[e.id].version == n + 1;
    forall v | 1 <= v <= n + 1 ensures HasVersion(t', b, k, v) {
      if v <= n {
        assert HasVersion(t, b, k, v);
        var i :| i in t && OfFile(t[i], b, k) && t[i].version == v;
        assert i in t' && OfFile(t'[i], b, k) && t'[i].version == v;
      } else {
        assert OfFile(t'[e.id], b, k);
      }
    }
  }

  lemma OtherFileNumbered(t: Table, e: Event, b: string, k: string, n: nat)
    requires Numbered(t, b, k, n) && Answers(t, e) && NewId(t, e)
    requires !(e.bucket == b && e.key == k)
    ensures Numbered(Step(t, e), b, k, n)
  {
    var t' := Step(t, e);
    assert forall i | i in t && OfFile(t[i], b, k) :: i in t' && t'[i] == t[i];
    assert forall i | i in t' && OfFile(t'[i], b, k) :: i in t && t'[i] == t[i];
    forall v | 1 <= v <= n ensures HasVersion(t', b, k, v) {
      assert HasVersion(t, b, k, v);
      var i :| i in t && OfFile(t[i], b, k) && t[i].version == v;
      assert i in t' && OfFile(t'[i], b, k) && t'[i].version == v;
    }
  }

  /**
   Over a run that deletes nothing of a file its versions are exactly 1 .. n, n
   being its uploads, and n is the latest.
   */
  lemma {:induction false} VersionsCount(es: seq<Event>, b: string, k: string)
    requires Legal(es) && DeleteFree(es, b, k)
    ensures Numbered(After(es), b, k, Uploads(es, b, k))
  {
    if es != [] {
      var p, e := es[..|es| - 1], es[|es| - 1];
      assert forall i | 0 <= i < |p| :: p[i] == es[i];
      VersionsCount(p, b, k);
      if e.bucket == b && e.key == k {
        UploadNumbered(After(p), e, b, k, Uploads(p, b, k));
      } else {
        OtherFileNumbered(After(p), e, b, k, Uploads(p, b, k));
      }
    }
  }

  /** What a download's `findOne` may return. */
  predicate Selects(t: Table, b: string, k: string, version: Option<int>, id: string) {
    id in t && OfFile(t[id], b, k) && if version.Some? then t[id].version == version.value else t[id].isLatest
  }

  /** A row is found exactly if the wanted version is one of 1 .. n; it is that version's row and no other. */
  ghost predicate FindsExactly(t: Table, b: string, k: string, version: Option<int>, wanted: int, n: nat) {
    ((exists id :: Selects(t, b, k, version, id)) <==> 1 <= wanted <= n) &&
    (forall id | Selects(t, b, k, version, id) :: t[id].version == wanted) &&
    forall id, id' | Selects(t, b, k, version, id) && Selects(t, b, k, version, id') :: id == id'
  }

  lemma DownloadFrom(t: Table, b: string, k: string, n: nat, version: Option<int>, wanted: int)
    requires Numbered(t, b, k, n) && wanted == if version.Some? then version.value else n
    ensures FindsExactly(t, b, k, version, wanted, n)
  {
    if 1 <= wanted <= n {
      assert HasVersion(t, b, k, wanted);
      var i :| i in t && OfFile(t[i], b, k) && t[i].version == wanted;
      assert Selects(t, b, k, version, i);
    }
    assert forall id | Selects(t, b, k, version, id) :: 1 <= wanted <= n && t[id].version == wanted;
  }

  /** Over such a run a download finds the version asked for, or, when none is asked for, the last upload. */
  lemma DownloadFinds(es: seq<Event>, b: string, k: string, version: Option<int>)
    requires Legal(es) && DeleteFree(es, b, k)
    ensures FindsExactly(After(es), b, k, version,
                         if version.Some? then version.value else Uploads(es, b, k), Uploads(es, b, k))
  {
    VersionsCount(es, b, k);
    var n := Uploads(es, b, k);
    DownloadFrom(After(es), b, k, n, version, if version.Some? then version.value else n);
  }

  /** One more event at the end of a run. */
  lemma Next(es: seq<Event>, e: Event, t: Table)
    requires Legal(es) && After(es) == t && Answers(t, e) && NewId(t, e)
    ensures Legal(es + [e]) && After(es + [e]) == Step(t, e)
  {
    assert (es + [e])[..|es|] == es;
  }

  // ------------------------------------------- what each event does to the table

  /**
   An upload of a file that has a latest row demotes that row, which keeps its version,
   and inserts the next version as the latest; one of a file that has none inserts
   version 1.  No other row changes, and where the insertion fails none is added.
   */
  lemma UploadExact(es: seq<Event>, b: string, k: string, id: string, found: Option<string>, insertOk: bool)
    requires Legal(es) && Answers(After(es), Upload(b, k, id, found, insertOk)) && id !in After(es)
    ensures var t, after := After(es), After(es + [Upload(b, k, id, found, insertOk)]);
            (found == None <==> forall i | i in t && t[i].bucket == b && t[i].key == k :: !t[i].isLatest) &&
            match found
            case None => after == if insertOk then t[id := Row(b, k, 1, true)] else t
            case Some(row) =>
              var v := t[row].version;
              var demoted := t[row := Row(b, k, v, false)];
              t[row] == Row(b, k, v, true) &&
              after == if insertOk then demoted[id := Row(b, k, v + 1, true)] else demoted
  {
    Next(es, Upload(b, k, id, found, insertOk), After(es));
    if found.Some? { assert LatestOf(After(es)[found.value], b, k); }
  }

  /** A completed multipart upload adds a latest row of version 1, and changes no other row. */
  lemma AssembledExact(es: seq<Event>, b: string, k: string, id: string)
    requires Legal(es) && id !in After(es)
    ensures After(es + [Assembled(b, k, id)]) == After(es)[id := Row(b, k, 1, true)]
  {
    Next(es, Assembled(b, k, id), After(es));
  }

  /** A delete of a file that has rows removes one of them, whichever was found, and nothing else. */
  lemma DeleteExact(es: seq<Event>, b: string, k: string, found: Option<string>)
    requires Legal(es) && Answers(After(es), Delete(b, k, found))
    ensures var t, after := After(es), After(es + [Delete(b, k, found)]);
            (found == None <==> forall i | i in t :: t[i].bucket != b || t[i].key != k) &&
            match found
            case None => after == t
            case Some(row) => t[row].bucket == b && t[row].key == k && after == t - {row}
  {
    Next(es, Delete(b, k, found), After(es));
    if found.Some? { assert OfFile(After(es)[found.value], b, k); }
  }

  /** The first upload of a file, and the next that finds its row. */
  lemma FirstUpload(b: string, k: string, x: string)
    ensures var es := [Upload(b, k, x, None, true)]; Legal(es) && After(es) == map[x := Row(b, k, 1, true)]
  {
    Next([], Upload(b, k, x, None, true), map[]);
    assert [] + [Upload(b, k, x, None, true)] == [Upload(b, k, x, None, true)];
  }

  lemma NoLatestThenUpload(es: seq<Event>, b: string, k: string, x: string, z: string)
    requires Legal(es) && After(es) == map[x := Row(b, k, 1, false)] && x != z
    ensures var all := es + [Upload(b, k, z, None, true)];
            Legal(all) && After(all) == map[x := Row(b, k, 1, false), z := Row(b, k, 1, true)]
  {
    Next(es, Upload(b, k, z, None, true), map[x := Row(b, k, 1, false)]);
  }

  /** After a delete of the latest of two rows the next upload starts again at version 1. */
  lemma DeletingLatestRepeatsVersions(b: string, k: string, x: string, y: string, z: string)
    requires x != y && y != z && x != z
    ensures var es := [Upload(b, k, x, None, true)] + [Upload(b, k, y, Some(x), true)] + [Delete(b, k, Some(y))]
                      + [Upload(b, k, z, None, true)];
            Legal(es) && After(es) == map[x := Row(b, k, 1, false), z := Row(b, k, 1, true)]
  {
    var first, two := Upload(b, k, x, None, true), map[x := Row(b, k, 1, false), y := Row(b, k, 2, true)];
    FirstUpload(b, k, x);
    Next([first], Upload(b, k, y, Some(x), true), map[x := Row(b, k, 1, true)]);
    assert Step(map[x := Row(b, k, 1, true)], Upload(b, k, y, Some(x), true)) == two;
    Next([first] + [Upload(b, k, y, Some(x), true)], Delete(b, k, Some(y)), two);
    assert two - {y} == map[x := Row(b, k, 1, false)];
    NoLatestThenUpload([first] + [Upload(b, k, y, Some(x), true)] + [Delete(b, k, Some(y))], b, k, x, z);
  }

  /** After an insertion that failed the file has no latest row, and the next upload starts again at version 1. */
  lemma FailedInsertionRepeatsVersions(b: string, k: string, x: string, y: string, z: string)
    requires x != y && y != z && x != z
    ensures var failed := [Upload(b, k, x, None, true)] + [Upload(b, k, y, Some(x), false)];
            Legal(failed) && After(failed) == map[x := Row(b, k, 1, false)] &&
            After(failed + [Upload(b, k, z, None, true)]) == map[x := Row(b, k, 1, false), z := Row(b, k, 1, true)]
  {
    var first := Upload(b, k, x, None, true);
    FirstUpload(b, k, x);
    Next([first], Upload(b, k, y, Some(x), false), map[x := Row(b, k, 1, true)]);
    assert map[x := Row(b, k, 1, true)][x := Row(b, k, 1, false)] == map[x := Row(b, k, 1, false)];
    NoLatestThenUpload([first] + [Upload(b, k, y, Some(x), false)], b, k, x, z);
  }

  /** Two multipart uploads of one file leave two latest rows of version 1. */
  lemma TwoAssembledAreLatest(b: string, k: string, x: string, y: string)
    requires x != y
    ensures var es := [Assembled(b, k, x)] + [Assembled(b, k, y)];
            Legal(es) && After(es) == map[x := Row(b, k, 1, true), y := Row(b, k, 1, true)]
  {
    Next([], Assembled(b, k, x), map[]);
    assert [] + [Assembled(b, k, x)] == [Assembled(b, k, x)];
    Next([Assembled(b, k, x)], Assembled(b, k, y), map[x := Row(b, k, 1, true)]);
  }

  // ---------------------------------------------------------------- the service

  class FilesService {
    var rows: Table

    constructor ()
      ensures rows == map[]
    {
      rows := map[];
    }

    /** `findOne` with a condition: some row that meets it, if one does. */
    method FindOne(bucket: string, key: string, latestOnly: bool) returns (found: Option<string>)
      ensures found.Some? ==> found.value in rows && OfFile(rows[found.value], bucket, key) &&
                              (latestOnly ==> rows[found.value].isLatest)
      ensures found.None? ==>
                forall i | i in rows :: !(OfFile(rows[i], bucket, key) && (latestOnly ==> rows[i].isLatest))
    {
      if exists i :: i in rows && OfFile(rows[i], bucket, key) && (latestOnly ==> rows[i].isLatest) {
        var i :| i in rows && OfFile(rows[i], bucket, key) && (latestOnly ==> rows[i].isLatest);
        found := Some(i);
      } else {
        found := None;
      }
    }

    method UploadFile(bucket: string, key: string, id: string, insertOk: bool) returns (found: Option<string>)
      modifies this
      ensures Answers(old(rows), Upload(bucket, key, id, found, insertOk))
      ensures rows == Step(old(rows), Upload(bucket, key, id, found, insertOk))
    {
      var version := 1;
      found := FindOne(bucket, key, true);
      if found.Some? {
        var existingFile := rows[found.value];
        rows := rows[found.value := existingFile.(isLatest := false)];
        version := existingFile.version + 1;
      }
      if insertOk {
        rows := rows[id := Row(bucket, key, version, true)];
      }
    }

    /** The row that a completed multipart upload saves, under its bucket's name. */
    method SaveAssembled(bucketName: string, key: string, id: string)
      modifies this
      ensures rows == Step(old(rows), Assembled(bucketName, key, id))
    {
      var version, isLatest := 1, true;
      rows := rows[id := Row(bucketName, key, version, isLatest)];
    }

    /** None is the source's NotFoundException. */
    method DeleteFile(bucket: string, key: string) returns (found: Option<string>)
      modifies this
      ensures Answers(old(rows), Delete(bucket, key, found))
      ensures rows == Step(old(rows), Delete(bucket, key, found))
    {
      found := FindOne(bucket, key, false);
      if found.Some? {
        rows := rows - {found.value};
      }
    }
  }
}
