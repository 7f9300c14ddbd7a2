/** The projects store of the web front end: an in-memory table of project
    records keyed by id, mutated by project actions, each mutation followed by
    one notification carrying the set of affected ids. */
module Projects {
  import opened Wrappers

  datatype Organization = Organization(slug: string, name: string)

  /** The stats payload attached after a stats load; the store never looks inside it. */
  datatype Stats = Stats(series: seq<(int, int)>)

  datatype Project = Project(id: string, slug: string, name: string,
                             organization: Organization, stats: Option<Stats>)

  /** The fields an update response carries; an absent field is not copied.
      `stats` is itself optional in a record, so an update may carry it as
      `Some(None)` (stats cleared) or `Some(Some(x))`. */
  datatype ProjectUpdate = ProjectUpdate(id: string, slug: Option<string>, name: Option<string>,
                                         organization: Option<Organization>,
                                         stats: Option<Option<Stats>>)

  /** What a mutator hands to `trigger`: the set of ids, no call at all, or the
      TypeError the source raises before reaching `trigger`. */
  datatype Notice = Trigger(ids: set<string>) | Silent | TypeError

  /** `Object.assign(project, data)`: every field present in the update overwrites
      the record's own; the others are kept. */
  function Assign(p: Project, d: ProjectUpdate): (r: Project)
    ensures r.id == d.id
    ensures r.stats == (if d.stats.Some? then d.stats.value else p.stats)
    ensures r.slug == (if d.slug.Some? then d.slug.value else p.slug)
    ensures r.name == (if d.name.Some? then d.name.value else p.name)
    ensures r.organization == (if d.organization.Some? then d.organization.value else p.organization)
  {
    Project(d.id, d.slug.GetOr(p.slug), d.name.GetOr(p.name),
            d.organization.GetOr(p.organization), d.stats.GetOr(p.stats))
  }

  function ProjectId(p: Project): string { p.id }

  function ProjectSlug(p: Project): string { p.slug }

  function OrgSlug(p: Project): string { p.organization.slug }

  // ---------------------------------------------------------------------------
  // The JavaScript object `itemsById`
  // ---------------------------------------------------------------------------

  /** A JavaScript object used as a dictionary: its entries, and the order in
      which `Object.values` visits its keys. */
  datatype Table = Table(entries: map<string, Project>, keys: seq<string>)

  ghost predicate Distinct(s: seq<string>) {
    forall i, j :: 0 <= i < j < |s| ==> s[i] != s[j]
  }

  /** The key order lists every key of the object exactly once. */
  ghost predicate WellFormed(t: Table) {
    Distinct(t.keys) && (forall k :: k in t.keys <==> k in t.entries)
  }

  const Empty := Table(map[], [])

  /** `object[k] = v`: a new key goes to the end of the iteration order, an
      existing key keeps its place. */
  function Put(t: Table, k: string, v: Project): (r: Table)
    requires WellFormed(t)
    ensures WellFormed(r)
    ensures r.entries == t.entries[k := v]
    ensures k in t.entries ==> r.keys == t.keys
    ensures k !in t.entries ==> r.keys == t.keys + [k]
  {
    if k in t.entries then Table(t.entries[k := v], t.keys)
    else Table(t.entries[k := v], t.keys + [k])
  }

  /** `Object.values(object)`. */
  function Values(t: Table): (all: seq<Project>)
    requires forall i :: 0 <= i < |t.keys| ==> t.keys[i] in t.entries
    ensures |all| == |t.keys|
    ensures forall i :: 0 <= i < |t.keys| ==> all[i] == t.entries[t.keys[i]]
    decreases |t.keys|
  {
    if t.keys == [] then []
    else [t.entries[t.keys[0]]] + Values(Table(t.entries, t.keys[1..]))
  }

  /** Every record sits under its own id; the store is in this state until a
      slug change adds a record under its new slug. */
  ghost predicate KeysMatchIds(t: Table) {
    forall k :: k in t.entries ==> t.entries[k].id == k
  }

  /** `all.find(p => key(p) === value)`, answered with the position of the
      first match. */
  function FindIndex(all: seq<Project>, key: Project -> string, value: string): (r: Option<nat>)
    ensures r.Some? ==> r.value < |all| && key(all[r.value]) == value
    ensures r.Some? ==> forall j :: 0 <= j < r.value ==> key(all[j]) != value
    ensures r.None? <==> forall j :: 0 <= j < |all| ==> key(all[j]) != value
    decreases |all|
  {
    if all == [] then None
    else if key(all[0]) == value then Some(0)
    else
      match FindIndex(all[1..], key, value)
      case None => None
      case Some(i) => Some(i + 1)
  }

  /** While every record sits under its own id, the first record with an id is
      the one stored under that id. */
  lemma FindByIdIsLookup(t: Table, id: string)
    requires WellFormed(t) && KeysMatchIds(t)
    ensures FindIndex(Values(t), ProjectId, id).Some? <==> id in t.entries
    ensures FindIndex(Values(t), ProjectId, id).Some? ==> t.keys[FindIndex(Values(t), ProjectId, id).value] == id
  {
    var all := Values(t);
    if id in t.entries {
      var i :| 0 <= i < |t.keys| && t.keys[i] == id;
      assert ProjectId(all[i]) == id;
    }
  }

  /** `Object.values` of an object with one more key at the end. */
  lemma {:induction false} ValuesSnoc(e: map<string, Project>, keys: seq<string>, k: string)
    requires forall i :: 0 <= i < |keys| ==> keys[i] in e
    requires k in e
    ensures Values(Table(e, keys + [k])) == Values(Table(e, keys)) + [e[k]]
    decreases |keys|
  {
    if keys == [] {
      assert Values(Table(e, [k])) == [e[k]] + Values(Table(e, [k][1..]));
    } else {
      assert (keys + [k])[1..] == keys[1..] + [k];
      ValuesSnoc(e, keys[1..], k);
    }
  }

  /** Assigning a key that is not listed leaves the listed values alone. */
  lemma {:induction false} ValuesOfUnlisted(e: map<string, Project>, keys: seq<string>, k: string, v: Project)
    requires forall i :: 0 <= i < |keys| ==> keys[i] in e && keys[i] != k
    ensures Values(Table(e[k := v], keys)) == Values(Table(e, keys))
    decreases |keys|
  {
    if keys != [] {
      ValuesOfUnlisted(e, keys[1..], k, v);
    }
  }

  /** Assigning the key listed once at position `i` replaces the value there. */
  lemma {:induction false} ValuesOfListed(e: map<string, Project>, keys: seq<string>, i: nat, v: Project)
    requires forall j :: 0 <= j < |keys| ==> keys[j] in e
    requires i < |keys| && forall j :: 0 <= j < |keys| && j != i ==> keys[j] != keys[i]
    ensures Values(Table(e[keys[i] := v], keys)) == Values(Table(e, keys))[i := v]
    decreases |keys|
  {
    var rest := keys[1..];
    if i == 0 {
      ValuesOfUnlisted(e, rest, keys[0], v);
    } else {
      assert rest[i - 1] == keys[i];
      ValuesOfListed(e, rest, i - 1, v);
    }
  }

  /** `Object.values` after assigning a new key: its record comes last. */
  lemma ValuesOfPutNew(t: Table, k: string, v: Project)
    requires WellFormed(t) && k !in t.entries
    ensures Values(Put(t, k, v)) == Values(t) + [v]
  {
    var e := t.entries[k := v];
    assert forall i :: 0 <= i < |t.keys| ==> t.keys[i] in t.entries && t.keys[i] != k by {
      forall i | 0 <= i < |t.keys| ensures t.keys[i] in t.entries && t.keys[i] != k {
        assert t.keys[i] in t.keys;
      }
    }
    ValuesOfUnlisted(t.entries, t.keys, k, v);
    ValuesSnoc(e, t.keys, k);
  }

  /** `Object.values` after assigning an existing key: its record is replaced
      where it stood. */
  lemma ValuesOfPutExisting(t: Table, i: nat, v: Project)
    requires WellFormed(t) && i < |t.keys|
    ensures Values(Put(t, t.keys[i], v)) == Values(t)[i := v]
  {
    assert forall j :: 0 <= j < |t.keys| ==> t.keys[j] in t.entries by {
      forall j | 0 <= j < |t.keys| ensures t.keys[j] in t.entries {
        assert t.keys[j] in t.keys;
      }
    }
    assert t.keys[i] in t.keys;
    ValuesOfListed(t.entries, t.keys, i, v);
  }

  /** A match in a prefix is found there, whatever follows it. */
  lemma FindIndexInPrefix(a: seq<Project>, b: seq<Project>, key: Project -> string, value: string)
    requires FindIndex(a, key, value).Some?
    ensures FindIndex(a + b, key, value) == FindIndex(a, key, value)
  {
    var i := FindIndex(a, key, value).value;
    var r := FindIndex(a + b, key, value);
    assert key((a + b)[i]) == value;
    assert r.Some? && r.value <= i;
    assert forall j :: 0 <= j < i ==> (a + b)[j] == a[j];
  }

  /** A match at `i` with none before it is the one `Array.find` answers. */
  lemma FirstMatchAt(all: seq<Project>, key: Project -> string, value: string, i: nat)
    requires i < |all| && key(all[i]) == value
    requires forall j :: 0 <= j < i ==> key(all[j]) != value
    ensures FindIndex(all, key, value) == Some(i)
  {
  }

  /** Putting a record at a position no earlier record's id matches makes it
      the first with its id. */
  lemma FirstMatchReplaced(all: seq<Project>, i: nat, v: Project)
    requires i < |all| && forall m :: 0 <= m < i ==> all[m].id != v.id
    ensures FindIndex(all[i := v], ProjectId, v.id) == Some(i)
  {
    var all' := all[i := v];
    assert forall m :: 0 <= m < i ==> ProjectId(all'[m]) != v.id by {
      forall m | 0 <= m < i ensures ProjectId(all'[m]) != v.id {
        assert all'[m] == all[m];
      }
    }
    FirstMatchAt(all', ProjectId, v.id, i);
  }

  /** Appending a record whose id no earlier record has makes it the first with its id. */
  lemma FirstMatchAppended(all: seq<Project>, v: Project)
    requires FindIndex(all, ProjectId, v.id).None?
    ensures FindIndex(all + [v], ProjectId, v.id) == Some(|all|)
  {
    var all' := all + [v];
    assert forall m :: 0 <= m < |all| ==> ProjectId(all'[m]) != v.id by {
      forall m | 0 <= m < |all| ensures ProjectId(all'[m]) != v.id {
        assert all'[m] == all[m];
      }
    }
    FirstMatchAt(all', ProjectId, v.id, |all|);
  }

  /** `getById` of an id answers the record under that id as key, whenever
      some record has the id: the first record carrying each id sits under
      that id. Loading makes it hold; creates, updates and a slug change to a
      slug that is not yet a key keep it; a slug change onto an existing key
      can break it. */
  ghost predicate FirstUnderOwnId(t: Table) {
    WellFormed(t) && FirstUnder(Values(t), t.keys)
  }

  /** The first record of `all` with each id stands where `keys` lists that id. */
  ghost predicate FirstUnder(all: seq<Project>, keys: seq<string>) {
    forall id :: FindIndex(all, ProjectId, id).Some? ==>
      FindIndex(all, ProjectId, id).value < |keys| && keys[FindIndex(all, ProjectId, id).value] == id
  }

  /** A store whose records all sit under their own ids has the property. */
  lemma KeysMatchIdsFirstUnderOwnId(t: Table)
    requires WellFormed(t) && KeysMatchIds(t)
    ensures FirstUnderOwnId(t)
  {
    forall id | FindIndex(Values(t), ProjectId, id).Some?
      ensures t.keys[FindIndex(Values(t), ProjectId, id).value] == id
    {
      FindByIdIsLookup(t, id);
    }
  }

  /** With the first record of each id under that id: an id that is a key at
      `j` has no record before `j`. */
  lemma NoEarlierWithOwnId(all: seq<Project>, keys: seq<string>, j: nat)
    requires |all| == |keys| && Distinct(keys) && j < |keys|
    requires FindIndex(all, ProjectId, keys[j]).Some? ==> keys[FindIndex(all, ProjectId, keys[j]).value] == keys[j]
    ensures forall m :: 0 <= m < j ==> all[m].id != keys[j]
  {
    assert FindIndex(all, ProjectId, keys[j]).Some? ==> FindIndex(all, ProjectId, keys[j]).value == j;
  }

  /** ... and an id that is no key has no record at all. */
  lemma NoneWithoutOwnKey(all: seq<Project>, keys: seq<string>, id: string)
    requires |all| == |keys| && id !in keys
    requires FindIndex(all, ProjectId, id).Some? ==> keys[FindIndex(all, ProjectId, id).value] == id
    ensures FindIndex(all, ProjectId, id).None?
  {
  }

  /** After `createSuccess(p)`, `getById(p.id)` answers `p`, on any store
      where each id's first record sits under that id. */
  lemma CreateThenGetById(t: Table, p: Project)
    requires FirstUnderOwnId(t)
    ensures var all := Values(Put(t, p.id, p));
            && FindIndex(all, ProjectId, p.id).Some?
            && all[FindIndex(all, ProjectId, p.id).value] == p
  {
    var all0 := Values(t);
    if p.id in t.entries {
      assert p.id in t.keys;
      var j :| 0 <= j < |t.keys| && t.keys[j] == p.id;
      NoEarlierWithOwnId(all0, t.keys, j);
      ValuesOfPutExisting(t, j, p);
      FirstMatchReplaced(all0, j, p);
    } else {
      NoneWithoutOwnKey(all0, t.keys, p.id);
      ValuesOfPutNew(t, p.id, p);
      FirstMatchAppended(all0, p);
    }
  }

  /** After `updateSuccess(d)`, on any store in which some record has the
      id, `getById(d.id)` answers the merge of the update into the first such
      record, at the place that record held. */
  lemma UpdateThenGetById(t: Table, d: ProjectUpdate)
    requires WellFormed(t) && FindIndex(Values(t), ProjectId, d.id).Some?
    ensures var i := FindIndex(Values(t), ProjectId, d.id).value;
            var k := t.keys[i];
            var all := Values(Put(t, k, Assign(t.entries[k], d)));
            && FindIndex(all, ProjectId, d.id) == Some(i)
            && all[i] == Assign(t.entries[k], d)
  {
    var all0 := Values(t);
    var i := FindIndex(all0, ProjectId, d.id).value;
    var v := Assign(t.entries[t.keys[i]], d);
    ValuesOfPutExisting(t, i, v);
    FirstMatchReplacedSameId(all0, i, v);
  }

  /** A record put in place of an id's first match, with the same id, is that
      id's first match. */
  lemma FirstMatchReplacedSameId(all: seq<Project>, i: nat, v: Project)
    requires FindIndex(all, ProjectId, v.id) == Some(i)
    ensures FindIndex(all[i := v], ProjectId, v.id) == Some(i)
  {
    assert forall m :: 0 <= m < i ==> all[m].id != v.id by {
      assert forall m :: 0 <= m < i ==> ProjectId(all[m]) != v.id;
    }
    FirstMatchReplaced(all, i, v);
  }

  /** Appending a record leaves the first match of an id alone, unless the
      id was unmatched and the record carries it. */
  lemma FindIndexAppended(all: seq<Project>, v: Project, id: string)
    requires FindIndex(all, ProjectId, id).Some? || v.id != id
    ensures FindIndex(all + [v], ProjectId, id) == FindIndex(all, ProjectId, id)
  {
    var all' := all + [v];
    if FindIndex(all, ProjectId, id).Some? {
      FindIndexInPrefix(all, [v], ProjectId, id);
    } else {
      forall m | 0 <= m < |all'| ensures ProjectId(all'[m]) != id {
        if m < |all| {
          assert all'[m] == all[m];
        }
      }
    }
  }

  /** Replacing a record that is not the first match of an id by one without
      that id leaves the first match alone. */
  lemma FindIndexReplacedOther(all: seq<Project>, i: nat, v: Project, id: string)
    requires i < |all| && v.id != id && FindIndex(all, ProjectId, id) != Some(i)
    ensures FindIndex(all[i := v], ProjectId, id) == FindIndex(all, ProjectId, id)
  {
    var all' := all[i := v];
    assert forall m :: 0 <= m < |all| && m != i ==> all'[m] == all[m];
    if FindIndex(all, ProjectId, id).Some? {
      FirstMatchAt(all', ProjectId, id, FindIndex(all, ProjectId, id).value);
    } else {
      assert forall m :: 0 <= m < |all'| ==> ProjectId(all'[m]) != id;
    }
  }

  /** Two lists with the same id at every position have the same first matches. */
  lemma FindIndexSameIds(a: seq<Project>, b: seq<Project>, id: string)
    requires |a| == |b| && forall m :: 0 <= m < |a| ==> a[m].id == b[m].id
    ensures FindIndex(b, ProjectId, id) == FindIndex(a, ProjectId, id)
  {
    if FindIndex(a, ProjectId, id).Some? {
      FirstMatchAt(b, ProjectId, id, FindIndex(a, ProjectId, id).value);
    } else {
      assert forall m :: 0 <= m < |b| ==> ProjectId(b[m]) != id;
    }
  }

  /** Appending a record keeps the property when its key is its id, or when
      an earlier record already carries its id. */
  lemma FirstUnderAppended(all: seq<Project>, keys: seq<string>, v: Project, k: string)
    requires FirstUnder(all, keys) && |all| == |keys|
    requires k == v.id || FindIndex(all, ProjectId, v.id).Some?
    ensures FirstUnder(all + [v], keys + [k])
  {
    var all' := all + [v];
    var keys' := keys + [k];
    forall id | FindIndex(all', ProjectId, id).Some?
      ensures FindIndex(all', ProjectId, id).value < |keys'| && keys'[FindIndex(all', ProjectId, id).value] == id
    {
      if FindIndex(all, ProjectId, id).Some? || v.id != id {
        FindIndexAppended(all, v, id);
        assert keys'[FindIndex(all, ProjectId, id).value] == keys[FindIndex(all, ProjectId, id).value];
      } else {
        FirstMatchAppended(all, v);
      }
    }
  }

  /** Replacing the record under key `v.id` by `v` keeps the property. */
  lemma FirstUnderReplacedOwnKey(all: seq<Project>, keys: seq<string>, j: nat, v: Project)
    requires FirstUnder(all, keys) && |all| == |keys| && Distinct(keys)
    requires j < |keys| && keys[j] == v.id
    ensures FirstUnder(all[j := v], keys)
  {
    var all' := all[j := v];
    NoEarlierWithOwnId(all, keys, j);
    forall id | FindIndex(all', ProjectId, id).Some?
      ensures FindIndex(all', ProjectId, id).value < |keys| && keys[FindIndex(all', ProjectId, id).value] == id
    {
      if id == v.id {
        FirstMatchReplaced(all, j, v);
      } else {
        FindIndexReplacedOther(all, j, v, id);
      }
    }
  }

  /** Records with the same id at every position keep the property. */
  lemma FirstUnderSameIds(a: seq<Project>, b: seq<Project>, keys: seq<string>)
    requires FirstUnder(a, keys) && |a| == |b| && forall m :: 0 <= m < |a| ==> a[m].id == b[m].id
    ensures FirstUnder(b, keys)
  {
    forall id | FindIndex(b, ProjectId, id).Some?
      ensures FindIndex(b, ProjectId, id).value < |keys| && keys[FindIndex(b, ProjectId, id).value] == id
    {
      FindIndexSameIds(a, b, id);
    }
  }

  /** Replacing a record by one with the same id keeps the property. */
  lemma FirstUnderReplacedSameId(all: seq<Project>, keys: seq<string>, i: nat, v: Project)
    requires FirstUnder(all, keys) && i < |all| && all[i].id == v.id
    ensures FirstUnder(all[i := v], keys)
  {
    FirstUnderSameIds(all, all[i := v], keys);
  }

  /** `createSuccess` keeps each id's first record under that id. */
  lemma CreateKeepsFirstUnderOwnId(t: Table, p: Project)
    requires FirstUnderOwnId(t)
    ensures FirstUnderOwnId(Put(t, p.id, p))
  {
    var all0 := Values(t);
    if p.id in t.entries {
      assert p.id in t.keys;
      var j :| 0 <= j < |t.keys| && t.keys[j] == p.id;
      ValuesOfPutExisting(t, j, p);
      FirstUnderReplacedOwnKey(all0, t.keys, j, p);
    } else {
      ValuesOfPutNew(t, p.id, p);
      FirstUnderAppended(all0, t.keys, p, p.id);
    }
  }

  /** `updateSuccess` keeps each id's first record under that id: the merged
      record keeps its id and its place. */
  lemma UpdateKeepsFirstUnderOwnId(t: Table, d: ProjectUpdate)
    requires FirstUnderOwnId(t) && FindIndex(Values(t), ProjectId, d.id).Some?
    ensures var k := t.keys[FindIndex(Values(t), ProjectId, d.id).value];
            FirstUnderOwnId(Put(t, k, Assign(t.entries[k], d)))
  {
    var all0 := Values(t);
    var i := FindIndex(all0, ProjectId, d.id).value;
    var v := Assign(t.entries[t.keys[i]], d);
    ValuesOfPutExisting(t, i, v);
    FirstUnderReplacedSameId(all0, t.keys, i, v);
  }

  /** Attaching stats keeps each id's first record under that id: no key
      moves and no record changes its id. */
  lemma StatsKeepFirstUnderOwnId(t: Table, t': Table)
    requires FirstUnderOwnId(t) && WellFormed(t') && t'.keys == t.keys
    requires forall k :: k in t.entries ==> k in t'.entries && t'.entries[k].id == t.entries[k].id
    ensures FirstUnderOwnId(t')
  {
    ValuesKeepIds(t, t');
    FirstUnderSameIds(Values(t), Values(t'), t.keys);
  }

  /** Entries changed without changing any id list the same ids. */
  lemma ValuesKeepIds(t: Table, t': Table)
    requires WellFormed(t) && WellFormed(t') && t'.keys == t.keys
    requires forall k :: k in t.entries ==> k in t'.entries && t'.entries[k].id == t.entries[k].id
    ensures forall m :: 0 <= m < |Values(t)| ==> Values(t)[m].id == Values(t')[m].id
  {
    var a, b := Values(t), Values(t');
    forall m | 0 <= m < |a| ensures a[m].id == b[m].id {
      var k := t.keys[m];
      assert k in t.entries by { assert k in t.keys; }
      assert a[m] == t.entries[k] && b[m] == t'.entries[k];
    }
  }

  /** A slug change to a slug that is not yet a key keeps each id's first
      record under that id: the copy comes after the record it copies. */
  lemma ChangeSlugKeepsFirstUnderOwnId(t: Table, prev: Project, newSlug: string)
    requires FirstUnderOwnId(t) && newSlug !in t.entries && prev in Values(t)
    ensures FirstUnderOwnId(Put(t, newSlug, prev.(slug := newSlug)))
  {
    var all0 := Values(t);
    var copy := prev.(slug := newSlug);
    ValuesOfPutNew(t, newSlug, copy);
    assert FindIndex(all0, ProjectId, copy.id).Some?;
    FirstUnderAppended(all0, t.keys, copy, newSlug);
  }

  /** A slug change to a slug that is not yet a key appends the copy and
      leaves everything before it in place: `getBySlug` of the old slug still
      answers the old record, and `getById` of its id answers what it answered
      before, never the copy. */
  lemma ChangeSlugLeavesOldRecordFirst(t: Table, i: nat, newSlug: string)
    requires WellFormed(t) && newSlug !in t.entries && i < |t.keys|
    requires FindIndex(Values(t), ProjectSlug, Values(t)[i].slug) == Some(i)
    ensures var prev := Values(t)[i];
            var all := Values(Put(t, newSlug, prev.(slug := newSlug)));
            && all == Values(t) + [prev.(slug := newSlug)]
            && FindIndex(all, ProjectSlug, prev.slug) == Some(i)
            && FindIndex(all, ProjectId, prev.id) == FindIndex(Values(t), ProjectId, prev.id)
            && FindIndex(all, ProjectId, prev.id).value < |Values(t)|
  {
    var prev := Values(t)[i];
    var copy := prev.(slug := newSlug);
    ValuesOfPutNew(t, newSlug, copy);
    FindIndexInPrefix(Values(t), [copy], ProjectSlug, prev.slug);
    FindIndexInPrefix(Values(t), [copy], ProjectId, prev.id);
  }

  // ---------------------------------------------------------------------------
  // loadInitialData: the reduce that builds a fresh object
  // ---------------------------------------------------------------------------

  /** `items.reduce((map, p) => { map[p.id] = p; return map; }, {})`. */
  function FromItems(items: seq<Project>): (t: Table)
    ensures WellFormed(t)
    decreases |items|
  {
    if items == [] then Empty
    else
      var last := items[|items| - 1];
      Put(FromItems(items[..|items| - 1]), last.id, last)
  }

  function Ids(items: seq<Project>): set<string> {
    set i | 0 <= i < |items| :: items[i].id
  }

  /** The keys of the fresh object are exactly the ids of the items. */
  lemma {:induction false} FromItemsKeys(items: seq<Project>)
    ensures FromItems(items).entries.Keys == Ids(items)
    ensures KeysMatchIds(FromItems(items))
    decreases |items|
  {
    if items != [] {
      var init := items[..|items| - 1];
      FromItemsKeys(init);
      assert Ids(items) == Ids(init) + {items[|items| - 1].id} by {
        forall k | k in Ids(items) ensures k in Ids(init) + {items[|items| - 1].id} {
          var i :| 0 <= i < |items| && items[i].id == k;
          if i < |items| - 1 { assert init[i] == items[i]; }
        }
        forall k | k in Ids(init) ensures k in Ids(items) {
          var i :| 0 <= i < |init| && init[i].id == k;
          assert items[i] == init[i];
        }
      }
    }
  }

  /** For duplicate ids the last item wins. */
  lemma {:induction false} FromItemsLastWins(items: seq<Project>, i: nat)
    requires i < |items|
    requires forall j :: i < j < |items| ==> items[j].id != items[i].id
    ensures items[i].id in FromItems(items).entries
    ensures FromItems(items).entries[items[i].id] == items[i]
    decreases |items|
  {
    if i < |items| - 1 {
      var init := items[..|items| - 1];
      assert init[i] == items[i];
      FromItemsLastWins(init, i);
    }
  }

  // ---------------------------------------------------------------------------
  // getAllGroupedByOrganization: the reduce that groups by organization slug
  // ---------------------------------------------------------------------------

  datatype Group = Group(organization: Organization, projects: seq<Project>)

  /** The accumulator object of the reduce: its groups and the order in which
      their organization slugs were first met. */
  datatype Grouping = Grouping(slugs: seq<string>, groups: map<string, Group>)

  /** One step of the reduce: append to the group of the project's organization,
      or open that group with this project's organization. */
  function GroupStep(acc: Grouping, p: Project): Grouping {
    var s := p.organization.slug;
    if s in acc.groups then
      Grouping(acc.slugs, acc.groups[s := acc.groups[s].(projects := acc.groups[s].projects + [p])])
    else
      Grouping(acc.slugs + [s], acc.groups[s := Group(p.organization, [p])])
  }

  /** `getAll().reduce(…, {})`. */
  function GroupAll(all: seq<Project>): Grouping
    decreases |all|
  {
    if all == [] then Grouping([], map[])
    else GroupStep(GroupAll(all[..|all| - 1]), all[|all| - 1])
  }

  /** The records of `all` whose organization has slug `s`, in order. */
  function Members(all: seq<Project>, s: string): (r: seq<Project>)
    ensures forall p :: multiset(r)[p] == if p.organization.slug == s then multiset(all)[p] else 0
    decreases |all|
  {
    if all == [] then []
    else
      var init := all[..|all| - 1];
      var last := all[|all| - 1];
      assert all == init + [last];
      Members(init, s) + (if last.organization.slug == s then [last] else [])
  }

  function OrgSlugs(all: seq<Project>): set<string> {
    set i | 0 <= i < |all| :: all[i].organization.slug
  }

  ghost predicate SlugsIndexGroups(g: Grouping) {
    Distinct(g.slugs) && (forall s :: s in g.slugs <==> s in g.groups)
  }

  /** One group per organization slug met, each slug listed once in first-met order. */
  lemma {:induction false} GroupAllKeys(all: seq<Project>)
    ensures SlugsIndexGroups(GroupAll(all))
    ensures GroupAll(all).groups.Keys == OrgSlugs(all)
    decreases |all|
  {
    if all != [] {
      var init := all[..|all| - 1];
      GroupAllKeys(init);
      assert OrgSlugs(all) == OrgSlugs(init) + {all[|all| - 1].organization.slug} by {
        forall s | s in OrgSlugs(all) ensures s in OrgSlugs(init) + {all[|all| - 1].organization.slug} {
          var i :| 0 <= i < |all| && all[i].organization.slug == s;
          if i < |all| - 1 { assert init[i] == all[i]; }
        }
        forall s | s in OrgSlugs(init) ensures s in OrgSlugs(all) {
          var i :| 0 <= i < |init| && init[i].organization.slug == s;
          assert all[i] == init[i];
        }
      }
    }
  }

  /** Each group holds exactly the records of its organization, in `getAll()` order. */
  lemma {:induction false} GroupAllMembers(all: seq<Project>, s: string)
    requires s in GroupAll(all).groups
    ensures GroupAll(all).groups[s].projects == Members(all, s)
    decreases |all|
  {
    var init := all[..|all| - 1];
    var last := all[|all| - 1];
    if last.organization.slug != s || last.organization.slug in GroupAll(init).groups {
      GroupAllMembers(init, s);
    } else {
      GroupAllKeys(init);
    }
  }

  /** A group's organization is that of the first record met with its slug. */
  lemma {:induction false} GroupAllOrganization(all: seq<Project>, i: nat)
    requires i < |all|
    requires forall j :: 0 <= j < i ==> all[j].organization.slug != all[i].organization.slug
    ensures all[i].organization.slug in GroupAll(all).groups
    ensures GroupAll(all).groups[all[i].organization.slug].organization == all[i].organization
    decreases |all|
  {
    var init := all[..|all| - 1];
    var s := all[i].organization.slug;
    if i < |all| - 1 {
      assert init[i] == all[i];
      assert forall j :: 0 <= j < i ==> init[j] == all[j];
      GroupAllOrganization(init, i);
    } else {
      GroupAllKeys(init);
    }
  }

  /** Every slug of `slugs` is met in `all`, and the slugs are listed in the
      order of the first record met with each. */
  ghost predicate FirstMetOrder(all: seq<Project>, slugs: seq<string>) {
    && (forall i :: 0 <= i < |slugs| ==> FindIndex(all, OrgSlug, slugs[i]).Some?)
    && (forall i, j :: 0 <= i < j < |slugs| ==>
          FindIndex(all, OrgSlug, slugs[i]).value < FindIndex(all, OrgSlug, slugs[j]).value)
  }

  lemma FirstMetOrderExtend(init: seq<Project>, last: Project, slugs: seq<string>)
    requires FirstMetOrder(init, slugs)
    ensures FirstMetOrder(init + [last], slugs)
    ensures forall i :: 0 <= i < |slugs| ==> FindIndex(init + [last], OrgSlug, slugs[i]).value < |init|
  {
    var all := init + [last];
    forall i | 0 <= i < |slugs|
      ensures FindIndex(all, OrgSlug, slugs[i]) == FindIndex(init, OrgSlug, slugs[i])
      ensures FindIndex(init, OrgSlug, slugs[i]).value < |init|
    {
      FindIndexInPrefix(init, [last], OrgSlug, slugs[i]);
    }
    forall i, j | 0 <= i < j < |slugs|
      ensures FindIndex(all, OrgSlug, slugs[i]).value < FindIndex(all, OrgSlug, slugs[j]).value
    {
    }
  }

  lemma FirstMetOrderExtendNew(init: seq<Project>, last: Project, slugs: seq<string>)
    requires FirstMetOrder(init, slugs) && FindIndex(init, OrgSlug, OrgSlug(last)).None?
    ensures FirstMetOrder(init + [last], slugs + [OrgSlug(last)])
  {
    FirstMetOrderExtend(init, last, slugs);
    var all := init + [last];
    var slugs' := slugs + [OrgSlug(last)];
    assert FindIndex(all, OrgSlug, OrgSlug(last)) == Some(|init|) by {
      assert forall j :: 0 <= j < |init| ==> all[j] == init[j];
      FirstMatchAt(all, OrgSlug, OrgSlug(last), |init|);
    }
    forall i | 0 <= i < |slugs'|
      ensures FindIndex(all, OrgSlug, slugs'[i]).Some?
      ensures i < |slugs| ==> FindIndex(all, OrgSlug, slugs'[i]).value < |init|
      ensures i == |slugs| ==> FindIndex(all, OrgSlug, slugs'[i]).value == |init|
    {
      if i < |slugs| {
        assert slugs'[i] == slugs[i];
      }
    }
    forall i, j | 0 <= i < j < |slugs'|
      ensures FindIndex(all, OrgSlug, slugs'[i]).value < FindIndex(all, OrgSlug, slugs'[j]).value
    {
      if j < |slugs| {
        assert slugs'[i] == slugs[i] && slugs'[j] == slugs[j];
      }
    }
  }

  /** The groups are listed in the order their organization slugs are first
      met in `getAll()`. */
  lemma {:induction false} GroupAllFirstMetOrder(all: seq<Project>)
    ensures FirstMetOrder(all, GroupAll(all).slugs)
    decreases |all|
  {
    if all != [] {
      var init := all[..|all| - 1];
      var last := all[|all| - 1];
      var g0 := GroupAll(init);
      assert all == init + [last];
      GroupAllFirstMetOrder(init);
      if OrgSlug(last) in g0.groups {
        assert GroupAll(all).slugs == g0.slugs;
        FirstMetOrderExtend(init, last, g0.slugs);
      } else {
        assert FindIndex(init, OrgSlug, OrgSlug(last)).None? by {
          GroupAllKeys(init);
        }
        assert GroupAll(all).slugs == g0.slugs + [OrgSlug(last)];
        FirstMetOrderExtendNew(init, last, g0.slugs);
      }
    }
  }

  /** The groups' records, concatenated in the order their slugs were first met. */
  function Flatten(slugs: seq<string>, groups: map<string, Group>): seq<Project>
    requires forall i :: 0 <= i < |slugs| ==> slugs[i] in groups
    decreases |slugs|
  {
    if slugs == [] then []
    else Flatten(slugs[..|slugs| - 1], groups) + groups[slugs[|slugs| - 1]].projects
  }

  lemma {:induction false} FlattenIgnoresOtherGroups(slugs: seq<string>, groups: map<string, Group>, s: string, x: Group)
    requires forall i :: 0 <= i < |slugs| ==> slugs[i] in groups && slugs[i] != s
    ensures Flatten(slugs, groups[s := x]) == Flatten(slugs, groups)
    decreases |slugs|
  {
    if slugs != [] {
      FlattenIgnoresOtherGroups(slugs[..|slugs| - 1], groups, s, x);
    }
  }

  lemma {:induction false} FlattenAppendToGroup(slugs: seq<string>, groups: map<string, Group>, s: string, p: Project)
    requires Distinct(slugs) && s in slugs
    requires forall i :: 0 <= i < |slugs| ==> slugs[i] in groups
    ensures multiset(Flatten(slugs, groups[s := groups[s].(projects := groups[s].projects + [p])]))
            == multiset(Flatten(slugs, groups)) + multiset{p}
    decreases |slugs|
  {
    var groups' := groups[s := groups[s].(projects := groups[s].projects + [p])];
    var init := slugs[..|slugs| - 1];
    if slugs[|slugs| - 1] == s {
      FlattenIgnoresOtherGroups(init, groups, s, groups'[s]);
    } else {
      assert s in init by {
        var i :| 0 <= i < |slugs| && slugs[i] == s;
        assert init[i] == s;
      }
      FlattenAppendToGroup(init, groups, s, p);
    }
  }

  /** One step of the reduce adds exactly the stepped-over record to the groups. */
  lemma GroupStepPermutation(g: Grouping, p: Project)
    requires SlugsIndexGroups(g)
    ensures SlugsIndexGroups(GroupStep(g, p))
    ensures multiset(Flatten(GroupStep(g, p).slugs, GroupStep(g, p).groups))
            == multiset(Flatten(g.slugs, g.groups)) + multiset{p}
  {
    var s := p.organization.slug;
    if s in g.groups {
      FlattenAppendToGroup(g.slugs, g.groups, s, p);
    } else {
      var g' := GroupStep(g, p);
      assert g'.slugs[..|g'.slugs| - 1] == g.slugs;
      FlattenIgnoresOtherGroups(g.slugs, g.groups, s, Group(p.organization, [p]));
      assert Flatten(g'.slugs, g'.groups) == Flatten(g.slugs, g.groups) + [p];
    }
  }

  /** The concatenation of the groups is a permutation of `getAll()`. */
  lemma {:induction false} GroupAllPermutation(all: seq<Project>)
    ensures SlugsIndexGroups(GroupAll(all))
    ensures multiset(Flatten(GroupAll(all).slugs, GroupAll(all).groups)) == multiset(all)
    decreases |all|
  {
    if all != [] {
      var init := all[..|all| - 1];
      var last := all[|all| - 1];
      var g := GroupAll(init);
      var g' := GroupAll(all);
      assert SlugsIndexGroups(g') && multiset(Flatten(g'.slugs, g'.groups)) == multiset(init) + multiset{last} by {
        GroupAllPermutation(init);
        GroupStepPermutation(g, last);
        assert g' == GroupStep(g, last);
      }
      assert multiset(all) == multiset(init) + multiset{last} by {
        assert all == init + [last];
      }
    }
  }

  // ---------------------------------------------------------------------------
  // The store
  // ---------------------------------------------------------------------------

  class ProjectsStore {
    var itemsById: Table

    ghost predicate Valid()
      reads this
    {
      WellFormed(itemsById)
    }

    /** `init` followed by `reset`: an empty object. */
    constructor ()
      ensures Valid() && itemsById == Empty
    {
      itemsById := Empty;
    }

    method Reset()
      modifies this
      ensures Valid() && itemsById == Empty
    {
      itemsById := Empty;
    }

    /** The records in iteration order. */
    function GetAll(): (all: seq<Project>)
      reads this
      requires Valid()
      ensures |all| == |itemsById.keys|
      ensures forall i :: 0 <= i < |all| ==> all[i] == itemsById.entries[itemsById.keys[i]]
    {
      Values(itemsById)
    }

    /** The first record in `getAll()` order with this id, or not found. */
    function GetById(id: string): (r: Option<Project>)
      reads this
      requires Valid()
      ensures var all := GetAll();
              r.None? <==> forall i :: 0 <= i < |all| ==> all[i].id != id
      ensures var all := GetAll();
              r.Some? ==> exists i :: 0 <= i < |all| && all[i] == r.value && r.value.id == id
                                      && forall j :: 0 <= j < i ==> all[j].id != id
    {
      var all := GetAll();
      match FindIndex(all, ProjectId, id)
      case None => None
      case Some(i) => Some(all[i])
    }

    /** The first record in `getAll()` order with this slug, or not found. */
    function GetBySlug(slug: string): (r: Option<Project>)
      reads this
      requires Valid()
      ensures var all := GetAll();
              r.None? <==> forall i :: 0 <= i < |all| ==> all[i].slug != slug
      ensures var all := GetAll();
              r.Some? ==> exists i :: 0 <= i < |all| && all[i] == r.value && r.value.slug == slug
                                      && forall j :: 0 <= j < i ==> all[j].slug != slug
    {
      var all := GetAll();
      match FindIndex(all, ProjectSlug, slug)
      case None => None
      case Some(i) => Some(all[i])
    }

    /** The records grouped under their organization's slug. */
    function GetAllGroupedByOrganization(): (g: Grouping)
      reads this
      requires Valid()
      ensures g.groups.Keys == OrgSlugs(GetAll())
      ensures forall s :: s in g.groups ==> g.groups[s].projects == Members(GetAll(), s)
      ensures forall i :: 0 <= i < |g.slugs| ==> g.slugs[i] in g.groups
      ensures multiset(Flatten(g.slugs, g.groups)) == multiset(GetAll())
      ensures FirstMetOrder(GetAll(), g.slugs)
    {
      var all := GetAll();
      GroupAllFirstMetOrder(all);
      GroupAllKeys(all);
      GroupAllPermutation(all);
      assert forall s :: s in GroupAll(all).groups ==> GroupAll(all).groups[s].projects == Members(all, s) by {
        forall s | s in GroupAll(all).groups ensures GroupAll(all).groups[s].projects == Members(all, s) {
          GroupAllMembers(all, s);
        }
      }
      GroupAll(all)
    }

    /** A fresh object built from the items; the notification names all its keys. */
    method LoadInitialData(items: seq<Project>) returns (notice: Notice)
      modifies this
      ensures Valid()
      ensures itemsById == FromItems(items)
      ensures itemsById.entries.Keys == Ids(items)
      ensures KeysMatchIds(itemsById) && FirstUnderOwnId(itemsById)
      ensures notice == Trigger(Ids(items))
    {
      itemsById := FromItems(items);
      FromItemsKeys(items);
      KeysMatchIdsFirstUnderOwnId(itemsById);
      notice := Trigger(itemsById.entries.Keys);
    }

    /** Store the record under a key equal to the new slug: a copy of the first
        record with the old slug, carrying the new slug; nothing is removed. */
    method OnChangeSlug(prevSlug: string, newSlug: string) returns (notice: Notice)
      requires Valid()
      modifies this
      ensures Valid()
      ensures old(GetBySlug(prevSlug)).None? ==> itemsById == old(itemsById) && notice == Silent
      ensures old(GetBySlug(prevSlug)).Some? ==>
                var prev := old(GetBySlug(prevSlug)).value;
                && itemsById == Put(old(itemsById), newSlug, prev.(slug := newSlug))
                && notice == Trigger({prev.id})
      ensures old(FirstUnderOwnId(itemsById)) && newSlug !in old(itemsById.entries) ==> FirstUnderOwnId(itemsById)
    {
      var prevProject := GetBySlug(prevSlug);
      if prevProject.None? {
        notice := Silent;
        return;
      }
      if FirstUnderOwnId(itemsById) && newSlug !in itemsById.entries {
        ChangeSlugKeepsFirstUnderOwnId(itemsById, prevProject.value, newSlug);
      }
      itemsById := Put(itemsById, newSlug, prevProject.value.(slug := newSlug));
      notice := Trigger({prevProject.value.id});
    }

    /** Store the record under its id, replacing any record there. */
    method OnCreateSuccess(project: Project) returns (notice: Notice)
      requires Valid()
      modifies this
      ensures Valid()
      ensures itemsById == Put(old(itemsById), project.id, project)
      ensures old(KeysMatchIds(itemsById)) ==> KeysMatchIds(itemsById)
      ensures old(FirstUnderOwnId(itemsById)) ==> FirstUnderOwnId(itemsById)
      ensures notice == Trigger({project.id})
    {
      if FirstUnderOwnId(itemsById) {
        CreateKeepsFirstUnderOwnId(itemsById, project);
      }
      itemsById := Put(itemsById, project.id, project);
      notice := Trigger({project.id});
    }

    /** Merge the update into the first record with its id, in place; with no
        such record `Object.assign(undefined, …)` throws. */
    method OnUpdateSuccess(data: ProjectUpdate) returns (notice: Notice)
      requires Valid()
      modifies this
      ensures Valid()
      ensures old(FindIndex(GetAll(), ProjectId, data.id)).None? ==>
                itemsById == old(itemsById) && notice == TypeError
      ensures old(FindIndex(GetAll(), ProjectId, data.id)).Some? ==>
                var k := old(itemsById.keys[FindIndex(GetAll(), ProjectId, data.id).value]);
                && itemsById.keys == old(itemsById.keys)
                && itemsById.entries == old(itemsById.entries)[k := Assign(old(itemsById.entries[k]), data)]
                && notice == Trigger({data.id})
      ensures old(KeysMatchIds(itemsById)) ==> KeysMatchIds(itemsById)
      ensures old(FirstUnderOwnId(itemsById)) ==> FirstUnderOwnId(itemsById)
    {
      var found := FindIndex(GetAll(), ProjectId, data.id);
      if found.None? {
        notice := TypeError;
        return;
      }
      if FirstUnderOwnId(itemsById) {
        UpdateKeepsFirstUnderOwnId(itemsById, data);
      }
      var k := itemsById.keys[found.value];
      itemsById := Put(itemsById, k, Assign(itemsById.entries[k], data));
      notice := Trigger({data.id});
    }

    /** Attach stats to every listed project the store holds; the rest are skipped. */
    method OnStatsLoadSuccess(data: Option<map<string, Stats>>) returns (notice: Notice)
      requires Valid()
      modifies this
      ensures Valid()
      ensures itemsById.keys == old(itemsById.keys)
      ensures itemsById.entries.Keys == old(itemsById.entries.Keys)
      ensures forall k :: k in itemsById.entries ==>
                itemsById.entries[k] ==
                  if data.Some? && k in data.value then old(itemsById.entries[k]).(stats := Some(data.value[k]))
                  else old(itemsById.entries[k])
      ensures notice == Trigger(if data.Some? then data.value.Keys * old(itemsById.entries.Keys) else {})
      ensures old(KeysMatchIds(itemsById)) ==> KeysMatchIds(itemsById)
    {
      var entries := data.GetOr(map[]);
      var pending := entries.Keys;
      var touchedIds: seq<string> := [];
      while pending != {}
        invariant Valid()
        invariant pending <= entries.Keys
        invariant itemsById.keys == old(itemsById.keys)
        invariant itemsById.entries.Keys == old(itemsById.entries.Keys)
        invariant forall k :: k in itemsById.entries ==>
                    itemsById.entries[k] ==
                      if k in entries && k !in pending then old(itemsById.entries[k]).(stats := Some(entries[k]))
                      else old(itemsById.entries[k])
        invariant forall k :: k in touchedIds <==> k in entries && k !in pending && k in old(itemsById.entries)
        decreases pending
      {
        var projectId :| projectId in pending;
        if projectId in itemsById.entries {
          itemsById := Put(itemsById, projectId, itemsById.entries[projectId].(stats := Some(entries[projectId])));
          touchedIds := touchedIds + [projectId];
        }
        pending := pending - {projectId};
      }
      notice := Trigger(set k | k in touchedIds);
    }
  }
}
