/** The content registry: every content file found at build time is registered
    once, in key order, into a slug-to-file dictionary and a metadata list; files
    under the shadow path or without a slug are skipped, and a file whose
    (subject, unit, class) was already seen is dropped. The list is then sorted by
    subject, unit and class, and looked up by slug. */
module Registry {
  import opened Wrappers
  import opened Seqs
  import opened Strings
  import opened QuizContent

  /** The catalog entry of one quiz. `id` is never set by the registry; it is the
      optional extra property the recent-history list looks for first. */
  datatype QuizMeta = QuizMeta(
    id: Option<string>,
    slug: Option<string>,
    title: string,
    subject: string,
    unit: int,
    classNo: int,
    description: Option<string>,
    tags: Option<seq<string>>,
    folder: Option<string>)

  /** The duplicate-detection key `${subject}|${unit}|${classNo}`. Numbers never
      render with a `|`, so the text key is determined by, and determines, the
      triple; the model keeps the triple. */
  datatype MetaKey = MetaKey(subject: string, unit: int, classNo: int)

  function KeyOf(m: QuizMeta): MetaKey {
    MetaKey(m.subject, m.unit, m.classNo)
  }

  /** A bundler key with the content file it resolves to. */
  datatype Entry = Entry(key: string, file: QuizFile)

  /** Keys the bundler also reports under the application root; they repeat files
      already listed under "./". */
  const ShadowPrefix: string := "data/quizzes/"

  /** `file?.meta?.slug` is truthy: present and non-empty. */
  predicate HasSlug(f: QuizFile) {
    f.meta.Some? && f.meta.value.slug.Some? && f.meta.value.slug.value != ""
  }

  predicate Skipped(e: Entry) {
    StartsWith(e.key, ShadowPrefix) || !HasSlug(e.file)
  }

  function EntryKey(e: Entry): MetaKey
    requires HasSlug(e.file)
  {
    var m := e.file.meta.value;
    MetaKey(m.subject, m.unit, m.classNo)
  }

  /** The second '/'-separated component of the key, when there is more than one. */
  function Folder(key: string): (r: Option<string>)
    ensures r.Some? <==> '/' in key
  {
    var parts := Split(key, '/');
    if |parts| > 1 then Some(parts[1]) else None
  }

  /** The folder is the text between the first '/' and the next one, or the end. */
  lemma FolderBetweenSlashes(key: string)
    requires '/' in key
    ensures var rest := key[IndexOf(key, '/') + 1..];
      Folder(key) == Some(if '/' in rest then rest[..IndexOf(rest, '/')] else rest)
  {
    SplitSecond(key, '/');
  }

  function MetaFrom(e: Entry): (m: QuizMeta)
    requires HasSlug(e.file)
    ensures KeyOf(m) == EntryKey(e) && m.slug == e.file.meta.value.slug && m.id.None?
  {
    var m := e.file.meta.value;
    QuizMeta(None, m.slug, m.title, m.subject, m.unit, m.classNo, m.description, m.tags, Folder(e.key))
  }

  /** The three collections the registration loop fills. */
  datatype Catalog = Catalog(json: map<string, QuizFile>, metas: seq<QuizMeta>, seen: set<MetaKey>)

  /** One iteration of the registration loop. */
  function Register(c: Catalog, e: Entry): Catalog {
    if Skipped(e) then c
    else if EntryKey(e) in c.seen then c
    else
      var m := MetaFrom(e);
      Catalog(c.json[m.slug.value := e.file], c.metas + [m], c.seen + {EntryKey(e)})
  }

  /** The registration loop over the keys in order, before sorting. */
  function Registered(es: seq<Entry>): Catalog {
    if es == [] then Catalog(map[], [], {})
    else Register(Registered(es[..|es| - 1]), es[|es| - 1])
  }

  predicate KeysDistinct(metas: seq<QuizMeta>) {
    forall i, j :: 0 <= i < j < |metas| ==> KeyOf(metas[i]) != KeyOf(metas[j])
  }

  /** What the registry keeps true: one entry per key, the seen set is exactly the
      keys listed, every listed slug is present, non-empty and stored, every stored
      file carries its own slug, and stored slugs are exactly the listed ones. */
  ghost predicate WellFormed(c: Catalog) {
    && KeysDistinct(c.metas)
    && (forall k :: k in c.seen <==> exists m :: m in c.metas && KeyOf(m) == k)
    && (forall m :: m in c.metas ==> m.slug.Some? && m.slug.value != "" && m.slug.value in c.json && m.id.None?)
    && (forall s :: s in c.json ==> exists m :: m in c.metas && m.slug == Some(s))
    && (forall s :: s in c.json ==> HasSlug(c.json[s]) && c.json[s].meta.value.slug == Some(s))
  }

  lemma {:induction false} RegisteredWellFormed(es: seq<Entry>)
    ensures WellFormed(Registered(es))
  {
    if es != [] {
      var c := Registered(es[..|es| - 1]);
      RegisteredWellFormed(es[..|es| - 1]);
      var e := es[|es| - 1];
      if !Skipped(e) && EntryKey(e) !in c.seen {
        var m := MetaFrom(e);
        var c' := Register(c, e);
        assert c'.metas == c.metas + [m];
        forall i, j | 0 <= i < j < |c'.metas| ensures KeyOf(c'.metas[i]) != KeyOf(c'.metas[j]) {
          if j == |c.metas| {
            assert c'.metas[i] in c.metas;
          } else {
            assert c'.metas[i] == c.metas[i] && c'.metas[j] == c.metas[j];
          }
        }
        forall k ensures k in c'.seen <==> exists m' :: m' in c'.metas && KeyOf(m') == k {
          if k in c.seen {
            var m' :| m' in c.metas && KeyOf(m') == k;
            assert m' in c'.metas;
          }
          if k == EntryKey(e) {
            assert m in c'.metas;
          }
        }
        forall s | s in c'.json ensures exists m' :: m' in c'.metas && m'.slug == Some(s) {
          if s == m.slug.value {
            assert m in c'.metas;
          } else {
            var m' :| m' in c.metas && m'.slug == Some(s);
            assert m' in c'.metas;
          }
        }
      }
    }
  }

  /** The position of the first entry that is registrable and has key `k`, or -1. */
  function FirstWithKey(es: seq<Entry>, k: MetaKey): (r: int)
    ensures -1 <= r < |es|
    ensures r >= 0 ==> !Skipped(es[r]) && EntryKey(es[r]) == k
    ensures r >= 0 ==> forall j :: 0 <= j < r ==> Skipped(es[j]) || EntryKey(es[j]) != k
    ensures r == -1 ==> forall j :: 0 <= j < |es| ==> Skipped(es[j]) || EntryKey(es[j]) != k
  {
    if es == [] then -1
    else
      var n := |es| - 1;
      var f := FirstWithKey(es[..n], k);
      assert forall j :: 0 <= j < n ==> es[..n][j] == es[j];
      if f >= 0 then f
      else if !Skipped(es[n]) && EntryKey(es[n]) == k then n
      else -1
  }

  /** First registered wins: a key is registered exactly when some registrable
      entry has it, and the one listed entry with that key is built from the
      first such entry; later entries with the same key are dropped. */
  lemma {:induction false} FirstRegisteredWins(es: seq<Entry>, k: MetaKey)
    ensures k in Registered(es).seen <==> FirstWithKey(es, k) >= 0
    ensures FirstWithKey(es, k) >= 0 ==>
      MetaFrom(es[FirstWithKey(es, k)]) in Registered(es).metas &&
      forall m :: m in Registered(es).metas && KeyOf(m) == k ==> m == MetaFrom(es[FirstWithKey(es, k)])
  {
    if es != [] {
      var n := |es| - 1;
      FirstRegisteredWins(es[..n], k);
      RegisteredWellFormed(es[..n]);
      var f := FirstWithKey(es[..n], k);
      assert f >= 0 ==> es[..n][f] == es[f];
      var c := Registered(es[..n]);
      var e := es[n];
      if !Skipped(e) && EntryKey(e) !in c.seen {
        assert Registered(es).metas == c.metas + [MetaFrom(e)];
        if EntryKey(e) != k {
          forall m | m in Registered(es).metas && KeyOf(m) == k ensures m in c.metas {
          }
        }
      }
    }
  }

  /** A later registrable entry whose key is new overwrites the stored file of its
      slug, even when an earlier entry registered the same slug, and appends its
      metadata. */
  lemma LaterSlugOverwrites(es: seq<Entry>, e: Entry)
    requires !Skipped(e) && EntryKey(e) !in Registered(es).seen
    ensures var s := e.file.meta.value.slug.value;
      Registered(es + [e]).json == Registered(es).json[s := e.file] &&
      Registered(es + [e]).json[s] == e.file &&
      Registered(es + [e]).metas == Registered(es).metas + [MetaFrom(e)]
  {
    assert (es + [e])[..|es|] == es;
  }

  /** A later entry whose key was already registered changes nothing, whatever its
      slug: its file is not stored either. */
  lemma DuplicateKeyDropped(es: seq<Entry>, e: Entry)
    requires !Skipped(e) && EntryKey(e) in Registered(es).seen
    ensures Registered(es + [e]) == Registered(es)
  {
    assert (es + [e])[..|es|] == es;
  }

  /** Skipped entries (shadow keys, no slug) have no effect at all: registering the
      whole key list is registering only the entries that are not skipped. */
  lemma {:induction false} SkippedEntriesIgnored(es: seq<Entry>)
    ensures Registered(es) == Registered(Filter(es, (e: Entry) => !Skipped(e)))
  {
    var p := (e: Entry) => !Skipped(e);
    if es != [] {
      var n := |es| - 1;
      SkippedEntriesIgnored(es[..n]);
      assert es == es[..n] + [es[n]];
      FilterAppend(es[..n], [es[n]], p);
      var f := Filter(es[..n], p);
      if p(es[n]) {
        assert Filter([es[n]], p) == [es[n]];
        assert (f + [es[n]])[..|f|] == f;
      } else {
        assert Filter([es[n]], p) == [];
        assert f + [] == f;
      }
    }
  }

  // ---------------------------------------------------------------------------
  // Sorting: `QUIZ_META.sort` by subject, then unit, then class number.

  /** The comparator `a` before-or-equal `b`. */
  predicate MetaLe(a: QuizMeta, b: QuizMeta) {
    if a.subject != b.subject then StrLe(a.subject, b.subject)
    else if a.unit != b.unit then a.unit <= b.unit
    else a.classNo <= b.classNo
  }

  lemma MetaLeTotalPreorder()
    ensures TotalPreorder(MetaLe)
  {
    forall a: QuizMeta, b: QuizMeta ensures MetaLe(a, b) || MetaLe(b, a) {
      StrLeTotal(a.subject, b.subject);
    }
    forall a: QuizMeta, b: QuizMeta, c: QuizMeta | MetaLe(a, b) && MetaLe(b, c) ensures MetaLe(a, c) {
      if a.subject != b.subject && b.subject != c.subject {
        StrLeTransitive(a.subject, b.subject, c.subject);
        if a.subject == c.subject {
          StrLeAntisymmetric(a.subject, b.subject);
        }
      }
    }
  }

  function SortMetas(metas: seq<QuizMeta>): (r: seq<QuizMeta>)
    ensures multiset(r) == multiset(metas)
    ensures SortedBy(r, MetaLe)
  {
    MetaLeTotalPreorder();
    SortBy(metas, MetaLe)
  }

  /** With one entry per key, the sorted list is strictly increasing in
      (subject, unit, class): subjects in order, units in order within a subject,
      class numbers strictly in order within a unit. */
  lemma SortedCatalogOrder(metas: seq<QuizMeta>, i: int, j: int)
    requires KeysDistinct(metas)
    requires 0 <= i < j < |SortMetas(metas)|
    ensures var r := SortMetas(metas);
      && StrLe(r[i].subject, r[j].subject)
      && (r[i].subject == r[j].subject ==> r[i].unit <= r[j].unit)
      && (r[i].subject == r[j].subject && r[i].unit == r[j].unit ==> r[i].classNo < r[j].classNo)
  {
    var r := SortMetas(metas);
    KeysDistinctPermutation(metas, r);
    assert MetaLe(r[i], r[j]);
    if r[i].subject == r[j].subject {
      StrLeTotal(r[i].subject, r[j].subject);
    }
  }

  /** Reordering a list does not create two entries with one key. */
  lemma KeysDistinctPermutation(a: seq<QuizMeta>, b: seq<QuizMeta>)
    requires KeysDistinct(a)
    requires multiset(a) == multiset(b)
    ensures KeysDistinct(b)
  {
    assert NoDup(a);
    MultisetNoDup(a);
    MultisetOnceNoDup(b);
    forall i, j | 0 <= i < j < |b| ensures KeyOf(b[i]) != KeyOf(b[j]) {
      assert b[i] in multiset(a) && b[j] in multiset(a);
      var p :| 0 <= p < |a| && a[p] == b[i];
      var q :| 0 <= q < |a| && a[q] == b[j];
      if p < q {
        assert KeyOf(a[p]) != KeyOf(a[q]);
      } else {
        assert KeyOf(a[q]) != KeyOf(a[p]);
      }
    }
  }

  /** The well-formedness facts hold after the list is reordered. */
  lemma WellFormedPermutation(c: Catalog, metas: seq<QuizMeta>)
    requires WellFormed(c)
    requires multiset(metas) == multiset(c.metas)
    ensures WellFormed(Catalog(c.json, metas, c.seen))
  {
    KeysDistinctPermutation(c.metas, metas);
    assert forall m :: m in metas <==> m in c.metas by {
      forall m ensures m in metas <==> m in c.metas {
        assert m in metas <==> m in multiset(metas);
        assert m in c.metas <==> m in multiset(c.metas);
      }
    }
  }

  /** `getQuizBySlug`: the first listed entry whose slug is `slug`. */
  function FindBySlug(metas: seq<QuizMeta>, slug: string): (r: Option<QuizMeta>)
    ensures r.None? <==> forall i :: 0 <= i < |metas| ==> metas[i].slug != Some(slug)
    ensures r.Some? ==> r.value.slug == Some(slug)
    ensures r.Some? ==> exists i :: 0 <= i < |metas| && metas[i] == r.value &&
                                    forall j :: 0 <= j < i ==> metas[j].slug != Some(slug)
  {
    Find(metas, (m: QuizMeta) => m.slug == Some(slug))
  }

  /** `loadQuizJsonBySlug`: the stored file, or nothing (the source's `null`). */
  function LoadBySlug(json: map<string, QuizFile>, slug: string): (r: Option<QuizFile>)
    ensures r.Some? <==> slug in json
    ensures r.Some? ==> r.value == json[slug]
  {
    if slug in json then Some(json[slug]) else None
  }

  /** For a registry built by the loop (in any order of its list), the two lookups
      agree: a slug has metadata exactly when it has a stored file, and the stored
      file carries that slug. */
  lemma LookupsAgree(c: Catalog, slug: string)
    requires WellFormed(c)
    ensures FindBySlug(c.metas, slug).Some? <==> LoadBySlug(c.json, slug).Some?
    ensures LoadBySlug(c.json, slug).Some? ==> LoadBySlug(c.json, slug).value.meta.value.slug == Some(slug)
  {
    if slug in c.json {
      var m :| m in c.metas && m.slug == Some(slug);
      var i :| 0 <= i < |c.metas| && c.metas[i] == m;
    }
  }

  /** The registry as built at module load: the dictionary, the list and the seen
      set, filled by the registration loop and then sorted. */
  class Registry {
    var quizJson: map<string, QuizFile>
    var quizMeta: seq<QuizMeta>
    var seenMetaKeys: set<MetaKey>

    function State(): Catalog
      reads this
    {
      Catalog(quizJson, quizMeta, seenMetaKeys)
    }

    ghost predicate Valid()
      reads this
    {
      WellFormed(State()) && SortedBy(quizMeta, MetaLe)
    }

    /** Runs `rawKeys.forEach(...)` over the bundler's entries, then sorts. */
    constructor (entries: seq<Entry>)
      ensures Valid()
      ensures quizJson == Registered(entries).json
      ensures seenMetaKeys == Registered(entries).seen
      ensures quizMeta == SortMetas(Registered(entries).metas)
    {
      quizJson := map[];
      quizMeta := [];
      seenMetaKeys := {};
      new;
      var i := 0;
      while i < |entries|
        invariant 0 <= i <= |entries|
        invariant State() == Registered(entries[..i])
      {
        var e := entries[i];
        assert entries[..i + 1][..i] == entries[..i];
        if StartsWith(e.key, ShadowPrefix) {
          // shadow path: skipped
        } else if !HasSlug(e.file) {
          // no meta.slug: skipped
        } else {
          var m := e.file.meta.value;
          var metaKey := MetaKey(m.subject, m.unit, m.classNo);
          if metaKey !in seenMetaKeys {
            seenMetaKeys := seenMetaKeys + {metaKey};
            var folder := Folder(e.key);
            quizJson := quizJson[m.slug.value := e.file];
            quizMeta := quizMeta + [QuizMeta(None, m.slug, m.title, m.subject, m.unit, m.classNo,
                                             m.description, m.tags, folder)];
          }
        }
        i := i + 1;
      }
      assert entries[..|entries|] == entries;
      RegisteredWellFormed(entries);
      quizMeta := SortMetas(quizMeta);
      WellFormedPermutation(Registered(entries), quizMeta);
    }

    /** `getAllQuizMeta`. */
    function GetAllQuizMeta(): (r: seq<QuizMeta>)
      reads this
      requires Valid()
      ensures SortedBy(r, MetaLe) && KeysDistinct(r)
    {
      quizMeta
    }

    /** `getQuizBySlug`. */
    function GetQuizBySlug(slug: string): (r: Option<QuizMeta>)
      reads this
      requires Valid()
      ensures r.Some? <==> slug in quizJson
      ensures r.Some? ==> r.value in quizMeta && r.value.slug == Some(slug)
    {
      LookupsAgree(State(), slug);
      FindBySlug(quizMeta, slug)
    }

    /** `loadQuizJsonBySlug`. */
    function LoadQuizJsonBySlug(slug: string): (r: Option<QuizFile>)
      reads this
      requires Valid()
      ensures r.Some? <==> exists m :: m in quizMeta && m.slug == Some(slug)
      ensures r.Some? ==> r.value.meta.Some? && r.value.meta.value.slug == Some(slug)
    {
      LoadBySlug(quizJson, slug)
    }
  }
}
