/** The recent-history list of the home page: at most eight (id, timestamp)
    entries, most recent first, kept in browser storage as JSON text. Storage and
    the JSON codec are parameters: the stored text is an `Option<string>`, and
    `parse`/`stringify` stand for `JSON.parse`/`JSON.stringify` (a failed parse is
    `None`). */
module RecentQuizzes {
  import opened Wrappers
  import opened Seqs
  import opened Strings
  import opened Registry

  const MaxRecents: nat := 8

  datatype RecentEntry = RecentEntry(id: string, ts: int)

  /** The values `JSON.parse` can produce (numbers restricted to integers). */
  datatype Json =
    | JNull
    | JBool(b: bool)
    | JNum(n: int)
    | JStr(str: string)
    | JArr(items: seq<Json>)
    | JObj(fields: map<string, Json>)

  // ---------------------------------------------------------------------------
  // Loading: `safeParse`.

  /** A truthy object whose `id` is a string and whose `ts` is a number. Arrays
      are objects too, but have neither field. */
  predicate EntryShaped(x: Json) {
    x.JObj? && "id" in x.fields && x.fields["id"].JStr? && "ts" in x.fields && x.fields["ts"].JNum?
  }

  function AsEntry(x: Json): RecentEntry
    requires EntryShaped(x)
  {
    RecentEntry(x.fields["id"].str, x.fields["ts"].n)
  }

  /** The shape filter: the well-shaped items, in order. */
  function Entries(items: seq<Json>): (r: seq<RecentEntry>)
    ensures |r| <= |items|
    ensures forall i :: 0 <= i < |items| && EntryShaped(items[i]) ==> AsEntry(items[i]) in r
    ensures (forall i :: 0 <= i < |items| ==> !EntryShaped(items[i])) ==> r == []
  {
    if items == [] then []
    else (if EntryShaped(items[0]) then [AsEntry(items[0])] else []) + Entries(items[1..])
  }

  /** Every entry kept comes from a well-shaped item. */
  lemma {:induction false} EntriesFromItems(items: seq<Json>, k: nat)
    requires k < |Entries(items)|
    ensures exists i :: 0 <= i < |items| && EntryShaped(items[i]) && Entries(items)[k] == AsEntry(items[i])
  {
    if EntryShaped(items[0]) && k == 0 {
      assert Entries(items)[0] == AsEntry(items[0]);
    } else {
      var k' := if EntryShaped(items[0]) then k - 1 else k;
      assert Entries(items)[k] == Entries(items[1..])[k'];
      EntriesFromItems(items[1..], k');
      var i :| 0 <= i < |items[1..]| && EntryShaped(items[1..][i]) && Entries(items[1..])[k'] == AsEntry(items[1..][i]);
      assert items[i + 1] == items[1..][i];
    }
  }

  /** The shape filter keeps the items' order. */
  lemma {:induction false} EntriesAppend(a: seq<Json>, b: seq<Json>)
    ensures Entries(a + b) == Entries(a) + Entries(b)
  {
    if a == [] {
      assert a + b == b;
    } else {
      assert (a + b)[1..] == a[1..] + b;
      EntriesAppend(a[1..], b);
    }
  }

  /** What `safeParse` does with the parsed value: an array gives its well-shaped
      items, at most eight; anything else gives the empty list. */
  function Decode(v: Json): (r: seq<RecentEntry>)
    ensures |r| <= MaxRecents
    ensures !v.JArr? ==> r == []
    ensures v.JArr? ==> |r| <= |Entries(v.items)| && r == Entries(v.items)[..|r|]
    ensures v.JArr? && |Entries(v.items)| <= MaxRecents ==> r == Entries(v.items)
    ensures v.JArr? ==> |r| == if |Entries(v.items)| < MaxRecents then |Entries(v.items)| else MaxRecents
  {
    if v.JArr? then Take(Entries(v.items), MaxRecents) else []
  }

  /** `safeParse`: no text or empty text, a parse error and a non-array all give
      the empty list. */
  function SafeParse(raw: Option<string>, parse: string -> Option<Json>): (r: seq<RecentEntry>)
    ensures |r| <= MaxRecents
    ensures raw.None? || raw == Some("") ==> r == []
    ensures raw.Some? && raw.value != "" && parse(raw.value).None? ==> r == []
    ensures raw.Some? && raw.value != "" && parse(raw.value).Some? ==> r == Decode(parse(raw.value).value)
  {
    if raw.None? || raw.value == "" then []
    else
      match parse(raw.value)
      case None => []
      case Some(v) => Decode(v)
  }

  // ---------------------------------------------------------------------------
  // Saving: `JSON.stringify` of the entries.

  function EntryJson(e: RecentEntry): Json {
    JObj(map["id" := JStr(e.id), "ts" := JNum(e.ts)])
  }

  function Encode(rs: seq<RecentEntry>): (v: Json)
    ensures v.JArr? && |v.items| == |rs|
  {
    JArr(seq(|rs|, i requires 0 <= i < |rs| => EntryJson(rs[i])))
  }

  /** Decoding what was encoded gives the entries back. */
  lemma {:induction false} EntriesEncode(rs: seq<RecentEntry>)
    ensures Entries(Encode(rs).items) == rs
  {
    if rs != [] {
      var items := Encode(rs).items;
      assert items[0] == EntryJson(rs[0]);
      assert EntryShaped(items[0]) && AsEntry(items[0]) == rs[0];
      assert items[1..] == Encode(rs[1..]).items;
      EntriesEncode(rs[1..]);
    }
  }

  /** What is saved loads back unchanged, given a codec whose parse undoes its
      stringify (and whose output is never the empty text, as for an array). */
  lemma SaveThenLoad(rs: seq<RecentEntry>, parse: string -> Option<Json>, stringify: Json -> string)
    requires forall v :: parse(stringify(v)) == Some(v)
    requires forall v :: stringify(v) != ""
    ensures SafeParse(Some(stringify(Encode(Take(rs, MaxRecents)))), parse) == Take(rs, MaxRecents)
  {
    EntriesEncode(Take(rs, MaxRecents));
    assert parse(stringify(Encode(Take(rs, MaxRecents)))) == Some(Encode(Take(rs, MaxRecents)));
  }

  // ---------------------------------------------------------------------------
  // `markOpened`.

  /** `id ?? slug ?? subject-unit-classNo`, as both `markOpened` and
      `recentMetas` derive it. */
  function DeriveId(m: QuizMeta): string {
    match m.id
    case Some(id) => id
    case None =>
      match m.slug
      case Some(slug) => slug
      case None => m.subject + "-" + IntToString(m.unit) + "-" + IntToString(m.classNo)
  }

  /** A registered meta has no `id` and has a slug, so its derived id is its slug. */
  lemma RegisteredIdIsSlug(c: Catalog, m: QuizMeta)
    requires WellFormed(c) && m in c.metas
    ensures DeriveId(m) == m.slug.value
  {
  }

  predicate UniqueIds(rs: seq<RecentEntry>) {
    forall i, j :: 0 <= i < j < |rs| ==> rs[i].id != rs[j].id
  }

  /** `r => r.id !== id`. */
  function OtherThan(id: string): RecentEntry -> bool {
    (e: RecentEntry) => e.id != id
  }

  /** `[{id, ts: now}, ...recents.filter(r => r.id !== id)].slice(0, 8)`: the
      opened quiz at the front, exactly once, at most eight entries. */
  function MarkedOpened(recents: seq<RecentEntry>, id: string, now: int): (r: seq<RecentEntry>)
    ensures 1 <= |r| <= MaxRecents
    ensures r[0] == RecentEntry(id, now)
    ensures forall i :: 1 <= i < |r| ==> r[i].id != id
    ensures forall i :: 1 <= i < |r| ==> r[i] in recents
  {
    Take([RecentEntry(id, now)] + Filter(recents, OtherThan(id)), MaxRecents)
  }

  /** The other entries follow in their old order: the tail is a prefix of the
      list without `id`, as long as room allows; when there is room, none is lost. */
  lemma MarkOpenedKeepsOthers(recents: seq<RecentEntry>, id: string, now: int)
    ensures var r := MarkedOpened(recents, id, now);
      var others := Filter(recents, OtherThan(id));
      && r[1..] == others[..|r| - 1]
      && |r| == (if 1 + |others| < MaxRecents then 1 + |others| else MaxRecents)
      && (1 + |others| <= MaxRecents ==> forall i :: 0 <= i < |recents| && recents[i].id != id ==> recents[i] in r)
  {
    var r := MarkedOpened(recents, id, now);
    var others := Filter(recents, OtherThan(id));
    assert r == ([RecentEntry(id, now)] + others)[..|r|];
  }

  /** A full list that does not hold `id` loses its last (oldest) entry. */
  lemma MarkOpenedEvictsOldest(recents: seq<RecentEntry>, id: string, now: int)
    requires |recents| == MaxRecents
    requires forall i :: 0 <= i < |recents| ==> recents[i].id != id
    ensures MarkedOpened(recents, id, now) == [RecentEntry(id, now)] + recents[..MaxRecents - 1]
  {
    FilterAllKept(recents, OtherThan(id));
  }

  lemma {:induction false} FilterOthersAround(a: seq<RecentEntry>, e: RecentEntry, b: seq<RecentEntry>)
    requires forall i :: 0 <= i < |a| ==> a[i].id != e.id
    requires forall i :: 0 <= i < |b| ==> b[i].id != e.id
    ensures Filter(a + [e] + b, OtherThan(e.id)) == a + b
  {
    var p := OtherThan(e.id);
    FilterAllKept(a, p);
    FilterAllKept(b, p);
    assert Filter([e], p) == [] by {
      assert !p(e);
      assert [e][1..] == [];
    }
    FilterAppend(a, [e], p);
    assert Filter(a + [e], p) == a;
    FilterAppend(a + [e], b, p);
  }

  /** Opening a quiz already in a duplicate-free list moves its entry to the front
      with the new time; the length is unchanged. */
  lemma MarkOpenedMovesToFront(recents: seq<RecentEntry>, k: nat, now: int)
    requires UniqueIds(recents) && k < |recents| <= MaxRecents
    ensures MarkedOpened(recents, recents[k].id, now) ==
      [RecentEntry(recents[k].id, now)] + recents[..k] + recents[k + 1..]
  {
    assert recents == recents[..k] + [recents[k]] + recents[k + 1..];
    FilterOthersAround(recents[..k], recents[k], recents[k + 1..]);
  }

  lemma {:induction false} FilterKeepsUniqueIds(rs: seq<RecentEntry>, p: RecentEntry -> bool)
    requires UniqueIds(rs)
    ensures UniqueIds(Filter(rs, p))
  {
    if rs != [] {
      FilterKeepsUniqueIds(rs[1..], p);
      var t := Filter(rs[1..], p);
      forall j | 0 <= j < |t| ensures t[j].id != rs[0].id {
        var i :| 0 <= i < |rs[1..]| && rs[1..][i] == t[j];
        assert rs[i + 1] == t[j];
      }
    }
  }

  /** A duplicate-free list stays duplicate-free. */
  lemma MarkOpenedKeepsUnique(recents: seq<RecentEntry>, id: string, now: int)
    requires UniqueIds(recents)
    ensures UniqueIds(MarkedOpened(recents, id, now))
  {
    var others := Filter(recents, OtherThan(id));
    FilterKeepsUniqueIds(recents, OtherThan(id));
    var r := MarkedOpened(recents, id, now);
    forall i, j | 0 <= i < j < |r| ensures r[i].id != r[j].id {
      if i > 0 {
        assert r[i] == others[i - 1] && r[j] == others[j - 1];
      }
    }
  }

  // ---------------------------------------------------------------------------
  // `recentMetas` and `last`.

  /** The last position whose derived id is `id`, or -1. */
  function LastWithId(metas: seq<QuizMeta>, id: string): (r: int)
    ensures -1 <= r < |metas|
    ensures r >= 0 ==> DeriveId(metas[r]) == id && forall j :: r < j < |metas| ==> DeriveId(metas[j]) != id
    ensures r == -1 <==> forall j :: 0 <= j < |metas| ==> DeriveId(metas[j]) != id
    decreases |metas|
  {
    if metas == [] then -1
    else if DeriveId(metas[|metas| - 1]) == id then |metas| - 1
    else LastWithId(metas[..|metas| - 1], id)
  }

  /** The map the loop fills: `map.set(id, m)` for each meta in order, so for
      each id the last meta with it wins. */
  function IdMap(metas: seq<QuizMeta>): (m: map<string, QuizMeta>)
    ensures forall id :: id in m <==> LastWithId(metas, id) >= 0
    ensures forall id :: id in m ==> m[id] == metas[LastWithId(metas, id)]
    decreases |metas|
  {
    if metas == [] then map[]
    else IdMap(metas[..|metas| - 1])[DeriveId(metas[|metas| - 1]) := metas[|metas| - 1]]
  }

  /** `recents.map(r => map.get(r.id)).filter(Boolean)`: the metas of the known
      ids, in recents order. */
  function LookupAll(recents: seq<RecentEntry>, m: map<string, QuizMeta>): (r: seq<QuizMeta>)
    ensures |r| <= |recents|
    ensures forall i :: 0 <= i < |recents| && recents[i].id in m ==> m[recents[i].id] in r
    ensures r == [] <==> forall i :: 0 <= i < |recents| ==> recents[i].id !in m
  {
    if recents == [] then []
    else (if recents[0].id in m then [m[recents[0].id]] else []) + LookupAll(recents[1..], m)
  }

  /** Every meta listed is the meta of some recent id. */
  lemma {:induction false} LookupAllFromRecents(recents: seq<RecentEntry>, m: map<string, QuizMeta>, k: nat)
    requires k < |LookupAll(recents, m)|
    ensures exists i :: 0 <= i < |recents| && recents[i].id in m && LookupAll(recents, m)[k] == m[recents[i].id]
  {
    if recents[0].id in m && k == 0 {
      assert LookupAll(recents, m)[0] == m[recents[0].id];
    } else {
      var k' := if recents[0].id in m then k - 1 else k;
      assert LookupAll(recents, m)[k] == LookupAll(recents[1..], m)[k'];
      LookupAllFromRecents(recents[1..], m, k');
      var i :| 0 <= i < |recents[1..]| && recents[1..][i].id in m && LookupAll(recents[1..], m)[k'] == m[recents[1..][i].id];
      assert recents[i + 1] == recents[1..][i];
    }
  }

  /** The lookup keeps the recents' order. */
  lemma {:induction false} LookupAllAppend(a: seq<RecentEntry>, b: seq<RecentEntry>, m: map<string, QuizMeta>)
    ensures LookupAll(a + b, m) == LookupAll(a, m) + LookupAll(b, m)
  {
    if a == [] {
      assert a + b == b;
    } else {
      assert (a + b)[1..] == a[1..] + b;
      LookupAllAppend(a[1..], b, m);
    }
  }

  /** `recentMetas[0] ?? null`. */
  function Last(recentMetas: seq<QuizMeta>): (r: Option<QuizMeta>)
    ensures r.None? <==> recentMetas == []
    ensures r.Some? ==> r.value == recentMetas[0]
  {
    if recentMetas == [] then None else Some(recentMetas[0])
  }

  /** `last` is the meta of the first recent id that is known. */
  lemma {:induction false} LastIsFirstKnown(recents: seq<RecentEntry>, m: map<string, QuizMeta>)
    ensures Last(LookupAll(recents, m)).Some? ==>
      exists i :: 0 <= i < |recents| && recents[i].id in m && Last(LookupAll(recents, m)).value == m[recents[i].id] &&
        forall j :: 0 <= j < i ==> recents[j].id !in m
  {
    if recents != [] && recents[0].id !in m {
      LastIsFirstKnown(recents[1..], m);
      if Last(LookupAll(recents[1..], m)).Some? {
        var i :| 0 <= i < |recents[1..]| && recents[1..][i].id in m &&
          Last(LookupAll(recents[1..], m)).value == m[recents[1..][i].id] &&
          forall j :: 0 <= j < i ==> recents[1..][j].id !in m;
        assert recents[i + 1] == recents[1..][i];
        forall j | 0 <= j < i + 1 ensures recents[j].id !in m {
          if j > 0 {
            assert recents[j] == recents[1..][j - 1];
          }
        }
      }
    }
  }

  /** Right after opening a listed quiz, `last` is the listed meta with its id
      (the quiz itself when no later meta shares the id). */
  lemma OpenedQuizIsLast(recents: seq<RecentEntry>, metaList: seq<QuizMeta>, k: nat, now: int)
    requires k < |metaList|
    ensures var id := DeriveId(metaList[k]);
      var m := IdMap(metaList);
      && id in m
      && Last(LookupAll(MarkedOpened(recents, id, now), m)) == Some(m[id])
  {
    var id := DeriveId(metaList[k]);
    var m := IdMap(metaList);
    var r := MarkedOpened(recents, id, now);
    assert LastWithId(metaList, id) >= 0;
    assert r[0].id == id && id in m;
    assert LookupAll(r, m) == [m[id]] + LookupAll(r[1..], m);
  }

  /** The meta a derived id maps to is the listed one when no later meta shares
      the id. */
  lemma IdMapUniqueId(metaList: seq<QuizMeta>, k: nat)
    requires k < |metaList|
    requires forall j :: k < j < |metaList| ==> DeriveId(metaList[j]) != DeriveId(metaList[k])
    ensures DeriveId(metaList[k]) in IdMap(metaList) && IdMap(metaList)[DeriveId(metaList[k])] == metaList[k]
  {
    var id := DeriveId(metaList[k]);
    var l := LastWithId(metaList, id);
    assert l >= 0 by {
      assert DeriveId(metaList[k]) == id;
    }
    assert DeriveId(metaList[l]) == id;
    assert l == k;
  }

  // ---------------------------------------------------------------------------
  // The hook's state.

  class RecentQuizzes {
    var recents: seq<RecentEntry>
    /** The text stored under the storage key. */
    var storage: Option<string>
    const parse: string -> Option<Json>
    const stringify: Json -> string

    ghost predicate Valid()
      reads this
    {
      |recents| <= MaxRecents
    }

    constructor(storage: Option<string>, parse: string -> Option<Json>, stringify: Json -> string)
      ensures this.recents == [] && this.storage == storage && this.parse == parse && this.stringify == stringify
      ensures Valid()
    {
      this.recents := [];
      this.storage := storage;
      this.parse := parse;
      this.stringify := stringify;
    }

    /** The mount effect: load the stored list. */
    method Load()
      modifies this
      ensures recents == SafeParse(storage, parse) && storage == old(storage) && Valid()
    {
      recents := SafeParse(storage, parse);
    }

    /** `save`: set the list, then store its first eight entries; a storage
        failure (`stored == false`) leaves the stored text as it was. */
    method Save(next: seq<RecentEntry>, stored: bool)
      requires |next| <= MaxRecents
      modifies this
      ensures recents == next && Valid()
      ensures storage == if stored then Some(stringify(Encode(Take(next, MaxRecents)))) else old(storage)
    {
      recents := next;
      if stored {
        storage := Some(stringify(Encode(Take(next, MaxRecents))));
      }
    }

    method MarkOpened(quiz: QuizMeta, now: int, stored: bool)
      modifies this
      ensures recents == MarkedOpened(old(recents), DeriveId(quiz), now) && Valid()
      ensures storage == if stored then Some(stringify(Encode(recents))) else old(storage)
    {
      var id := DeriveId(quiz);
      var filtered := Filter(recents, OtherThan(id));
      var next := Take([RecentEntry(id, now)] + filtered, MaxRecents);
      Save(next, stored);
    }

    method ClearRecents(stored: bool)
      modifies this
      ensures recents == [] && Valid()
      ensures storage == if stored then Some(stringify(Encode([]))) else old(storage)
    {
      Save([], stored);
    }

    /** `recentMetas`: fill the id map in a loop over the metas, then look the
        recent ids up. */
    method RecentMetas(metaList: seq<QuizMeta>) returns (r: seq<QuizMeta>)
      ensures r == LookupAll(recents, IdMap(metaList))
    {
      var m: map<string, QuizMeta> := map[];
      for i := 0 to |metaList|
        invariant m == IdMap(metaList[..i])
      {
        assert metaList[..i + 1][..i] == metaList[..i];
        m := m[DeriveId(metaList[i]) := metaList[i]];
      }
      assert metaList[..|metaList|] == metaList;
      r := LookupAll(recents, m);
    }
  }

  /** With a codec whose parse undoes its stringify, loading after a successful
      save gives the saved list back. */
  lemma ReloadAfterMarkOpened(recents: seq<RecentEntry>, id: string, now: int,
                              parse: string -> Option<Json>, stringify: Json -> string)
    requires forall v :: parse(stringify(v)) == Some(v)
    requires forall v :: stringify(v) != ""
    ensures var r := MarkedOpened(recents, id, now);
      SafeParse(Some(stringify(Encode(r))), parse) == r
  {
    var r := MarkedOpened(recents, id, now);
    SaveThenLoad(r, parse, stringify);
    assert Take(r, MaxRecents) == r;
  }
}
