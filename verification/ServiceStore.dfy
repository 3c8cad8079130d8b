/** The in-memory service registry and the services manager's cache over it. */
module ServiceStore {
  import opened JavaInt
  import opened Wrappers

  /** What `AbstractRegisteredService.equals` compares: everything but the id and the class. */
  datatype Content = Content(
    allowedToProxy: bool, anonymousAccess: bool, enabled: bool, evaluationOrder: int, ignoreAttributes: bool,
    ssoEnabled: bool, allowedAttributes: seq<string>, description: Option<string>, name: string, serviceId: string,
    theme: Option<string>, usernameAttribute: Option<string>)

  /** Ant patterns or regular expressions. */
  datatype Expression = Ant | Regex

  datatype Entry = Entry(id: JLong, expression: Expression, content: Content)

  const NO_ID: JLong := -1
  const MAX_ID: JLong := 0x7fff_ffff_ffff_ffff

  // ---------------------------------------------------------------- lists and what loading them gives

  /** Loading puts the entries into a map one after the other: the last of each id stays. */
  function Loaded(list: seq<Entry>): map<JLong, Entry> {
    if |list| == 0 then map[] else map[list[0].id := list[0]] + Loaded(list[1..])
  }

  /** Where `List.remove` finds the first entry of this content; the length if there is none. */
  function FirstOf(list: seq<Entry>, c: Content): (i: nat)
    ensures i <= |list|
    ensures forall j :: 0 <= j < i ==> list[j].content != c
    ensures i < |list| ==> list[i].content == c
  {
    if |list| == 0 || list[0].content == c then 0 else 1 + FirstOf(list[1..], c)
  }

  function Removed(list: seq<Entry>, c: Content): seq<Entry> {
    var i := FirstOf(list, c);
    if i < |list| then list[..i] + list[i + 1..] else list
  }

  /** The highest id above zero, zero if there is none. */
  function HighestId(list: seq<Entry>): (m: JLong)
    ensures m >= 0 && forall i :: 0 <= i < |list| ==> list[i].id <= m
    ensures m > 0 ==> exists i :: 0 <= i < |list| && list[i].id == m
  {
    if |list| == 0 then 0
    else
      var m := HighestId(list[..|list| - 1]);
      var last := list[|list| - 1];
      assert forall i :: 0 <= i < |list| - 1 ==> list[..|list| - 1][i] == list[i];
      assert last.id > m ==> list[|list| - 1].id == last.id;
      if last.id > m then last.id else m
  }

  /** The entry as stored: one without id gets the next one, in wrapping `long` arithmetic. */
  function Numbered(list: seq<Entry>, e: Entry): Entry {
    if e.id == NO_ID then e.(id := Int64(HighestId(list) + 1)) else e
  }

  function Saved(list: seq<Entry>, e: Entry): seq<Entry> {
    Removed(list, e.content) + [Numbered(list, e)]
  }

  lemma {:induction false} LoadedConcat(a: seq<Entry>, b: seq<Entry>)
    ensures Loaded(a + b) == Loaded(a) + Loaded(b)
  {
    if |a| == 0 {
      assert a + b == b;
    } else {
      LoadedConcat(a[1..], b);
      assert (a + b)[1..] == a[1..] + b;
    }
  }

  lemma LoadedAppend(list: seq<Entry>, e: Entry)
    ensures Loaded(list + [e]) == Loaded(list)[e.id := e]
  {
    LoadedConcat(list, [e]);
    assert Loaded([e]) == map[e.id := e];
  }

  /** The map holds the ids of the list, each with an entry of the list. */
  lemma {:induction false} LoadedFrom(list: seq<Entry>)
    ensures forall k :: k in Loaded(list) <==> exists i :: 0 <= i < |list| && list[i].id == k
    ensures forall k :: k in Loaded(list) ==> Loaded(list)[k].id == k && Loaded(list)[k] in list
  {
    if |list| > 0 {
      LoadedFrom(list[1..]);
      forall k | k in Loaded(list) ensures exists i :: 0 <= i < |list| && list[i].id == k {
        if k in Loaded(list[1..]) {
          var i :| 0 <= i < |list[1..]| && list[1..][i].id == k;
          assert list[i + 1].id == k;
        }
      }
      forall i | 0 <= i < |list| ensures list[i].id in Loaded(list) {
        if i > 0 { assert list[1..][i - 1].id == list[i].id; }
      }
    }
  }

  // ---------------------------------------------------------------- new ids

  /** An entry saved with the id -1 gets the one after the highest; any other keeps its own. Nothing else changes. */
  lemma NewId(list: seq<Entry>, e: Entry)
    ensures e.id == -1 ==>
      Numbered(list, e).id == if HighestId(list) == 0x7fff_ffff_ffff_ffff then -0x8000_0000_0000_0000
                              else HighestId(list) + 1
    ensures e.id != -1 ==> Numbered(list, e).id == e.id
    ensures Numbered(list, e).content == e.content && Numbered(list, e).expression == e.expression
  {
    assert Int64(MAX_ID + 1) == -0x8000_0000_0000_0000;
  }

  /** A new entry gets an id no stored entry has, except that the highest `long` is followed by the lowest. */
  lemma NewIdFresh(list: seq<Entry>, e: Entry)
    requires e.id == -1
    ensures (forall i :: 0 <= i < |list| ==> list[i].id != Numbered(list, e).id)
         <==> HighestId(list) < MAX_ID || forall i :: 0 <= i < |list| ==> list[i].id != -0x8000_0000_0000_0000
  {
    if HighestId(list) == MAX_ID {
      assert Int64(MAX_ID + 1) == -0x8000_0000_0000_0000;
    }
  }

  // ---------------------------------------------------------------- agreement of cache and list

  ghost predicate Agrees(cache: map<JLong, Entry>, list: seq<Entry>) {
    cache == Loaded(list)
  }

  /** No later entry has the id of the `i`th. */
  predicate LastOfId(list: seq<Entry>, i: nat)
    requires i < |list|
  {
    forall j :: i < j < |list| ==> list[j].id != list[i].id
  }

  /** What saving throws out of the list: nothing, an entry of the same id, or one that a later entry overrides. */
  predicate SaveSafe(list: seq<Entry>, e: Entry) {
    var i := FirstOf(list, e.content);
    i == |list| || list[i].id == e.id || !LastOfId(list, i)
  }

  lemma Around(list: seq<Entry>, i: nat)
    requires i < |list|
    ensures Loaded(list) == Loaded(list[..i])[list[i].id := list[i]] + Loaded(list[i + 1..])
    ensures Loaded(list[..i] + list[i + 1..]) == Loaded(list[..i]) + Loaded(list[i + 1..])
  {
    LoadedAround(list[..i], list[i], list[i + 1..]);
    LoadedConcat(list[..i], list[i + 1..]);
    SplitAt(list, i);
  }

  lemma SplitAt<T>(s: seq<T>, i: nat)
    requires i < |s|
    ensures s == s[..i] + [s[i]] + s[i + 1..]
  {}

  lemma LoadedAround(a: seq<Entry>, x: Entry, b: seq<Entry>)
    ensures Loaded(a + [x] + b) == Loaded(a)[x.id := x] + Loaded(b)
  {
    LoadedConcat(a + [x], b);
    LoadedAppend(a, x);
  }

  lemma LaterHas(list: seq<Entry>, i: nat)
    requires i < |list|
    ensures list[i].id in Loaded(list[i + 1..]) <==> !LastOfId(list, i)
  {
    LoadedFrom(list[i + 1..]);
    if !LastOfId(list, i) {
      var j :| i < j < |list| && list[j].id == list[i].id;
      assert list[i + 1..][j - i - 1].id == list[i].id;
    }
  }

  /** Saving `e`, id given, keeps cache and list in agreement exactly when it is safe. */
  lemma SaveAgrees(cache: map<JLong, Entry>, list: seq<Entry>, e: Entry)
    requires Agrees(cache, list)
    ensures Agrees(cache[e.id := e], Removed(list, e.content) + [e]) <==> SaveSafe(list, e)
  {
    var i := FirstOf(list, e.content);
    LoadedAppend(Removed(list, e.content), e);
    if i < |list| {
      Around(list, i);
      LaterHas(list, i);
      NotBefore(list, i);
      SaveMaps(Loaded(list[..i]), list[i], Loaded(list[i + 1..]), e);
    }
  }

  /** The entries before the first of a content are different from it. */
  lemma NotBefore(list: seq<Entry>, i: nat)
    requires i < |list| && forall j :: 0 <= j < i ==> list[j].content != list[i].content
    ensures forall k :: k in Loaded(list[..i]) ==> Loaded(list[..i])[k] != list[i]
  {
    LoadedFrom(list[..i]);
    forall k | k in Loaded(list[..i]) ensures Loaded(list[..i])[k] != list[i] {
      var j :| 0 <= j < i && list[..i][j] == Loaded(list[..i])[k];
    }
  }

  lemma SaveMaps(before: map<JLong, Entry>, x: Entry, after: map<JLong, Entry>, e: Entry)
    requires x.id in before ==> before[x.id] != x
    ensures (before[x.id := x] + after)[e.id := e] == (before + after)[e.id := e] <==> x.id == e.id || x.id in after
  {
    var m, n := (before[x.id := x] + after)[e.id := e], (before + after)[e.id := e];
    if x.id == e.id || x.id in after {
      assert m.Keys == n.Keys;
    } else {
      assert x.id in m && m[x.id] == x;
      assert x.id in n ==> n[x.id] == before[x.id];
    }
  }

  /** Deleting hits the entry it means, and the list has no other of that id. */
  predicate DeleteSafe(list: seq<Entry>, e: Entry) {
    var i := FirstOf(list, e.content);
    i < |list| && list[i].id == e.id && forall j :: 0 <= j < |list| && j != i ==> list[j].id != e.id
  }

  /** Deleting a cached entry keeps agreement exactly when it is safe; otherwise a reload brings the id back. */
  lemma DeleteAgrees(cache: map<JLong, Entry>, list: seq<Entry>, id: JLong)
    requires Agrees(cache, list) && id in cache
    ensures Agrees(cache - {id}, Removed(list, cache[id].content)) <==> DeleteSafe(list, cache[id])
    ensures id in Loaded(Removed(list, cache[id].content)) <==> !DeleteSafe(list, cache[id])
  {
    var e := cache[id];
    CachedContent(list, id);
    var i := FirstOf(list, e.content);
    Around(list, i);
    OtherOfId(list, i, id);
    DeleteMaps(Loaded(list[..i]), list[i], Loaded(list[i + 1..]), id);
  }

  lemma CachedContent(list: seq<Entry>, id: JLong)
    requires id in Loaded(list)
    ensures Loaded(list)[id].id == id && FirstOf(list, Loaded(list)[id].content) < |list|
  {
    LoadedFrom(list);
    var k :| 0 <= k < |list| && list[k] == Loaded(list)[id];
  }

  lemma DeleteMaps(before: map<JLong, Entry>, x: Entry, after: map<JLong, Entry>, id: JLong)
    requires id in before[x.id := x] + after
    ensures (before[x.id := x] + after) - {id} == before + after <==> id !in before && id !in after
    ensures id !in before && id !in after ==> x.id == id
  {
    if id !in before && id !in after {
      assert (before[x.id := x] + after) - {id} == before + after;
    } else {
      assert id in before + after;
    }
  }

  lemma OtherOfId(list: seq<Entry>, i: nat, id: JLong)
    requires i < |list|
    ensures (forall j :: 0 <= j < |list| && j != i ==> list[j].id != id)
         <==> id !in Loaded(list[..i]) && id !in Loaded(list[i + 1..])
  {
    LoadedFrom(list[..i]);
    LoadedFrom(list[i + 1..]);
    if id !in Loaded(list[..i]) && id !in Loaded(list[i + 1..]) {
      forall j | 0 <= j < |list| && j != i ensures list[j].id != id {
        if j < i {
          assert list[..i][j] == list[j];
        } else {
          assert list[i + 1..][j - i - 1] == list[j];
        }
      }
    }
  }

  // ---------------------------------------------------------------- runs of saves

  /** The new or edited entry shares its content with no stored entry of another id. */
  predicate Unshared(list: seq<Entry>, e: Entry) {
    forall i :: 0 <= i < |list| && list[i].content == e.content ==> list[i].id == Numbered(list, e).id
  }

  function SaveAll(list: seq<Entry>, es: seq<Entry>): seq<Entry>
    decreases |es|
  {
    if |es| == 0 then list else SaveAll(Saved(list, es[0]), es[1..])
  }

  function CacheAll(cache: map<JLong, Entry>, list: seq<Entry>, es: seq<Entry>): map<JLong, Entry>
    decreases |es|
  {
    if |es| == 0 then cache
    else
      var e := Numbered(list, es[0]);
      CacheAll(cache[e.id := e], Saved(list, es[0]), es[1..])
  }

  predicate AllUnshared(list: seq<Entry>, es: seq<Entry>)
    decreases |es|
  {
    |es| > 0 ==> Unshared(list, es[0]) && AllUnshared(Saved(list, es[0]), es[1..])
  }

  /**
    After any run of saves, new or edited, whose contents are shared by no two ids, the cache is what a reload would
    give, so reloading changes nothing.
   */
  lemma {:induction false} SavesAgree(cache: map<JLong, Entry>, list: seq<Entry>, es: seq<Entry>)
    requires Agrees(cache, list) && AllUnshared(list, es)
    ensures Agrees(CacheAll(cache, list, es), SaveAll(list, es))
    decreases |es|
  {
    if |es| > 0 {
      var e := Numbered(list, es[0]);
      SaveAgrees(cache, list, e);
      SavesAgree(cache[e.id := e], Saved(list, es[0]), es[1..]);
    }
  }

  /** An edited entry leaves its older version in the list: deleting it from both, then reloading, brings that back. */
  lemma EditedEntryReturns(first: Entry, edited: Entry)
    requires first.id == -1 && edited.id == 1 && edited.content != first.content
    ensures var list := SaveAll([], [first, edited]);
            var cache := CacheAll(map[], [], [first, edited]);
            && AllUnshared([], [first, edited]) && cache == map[1 := edited]
            && !DeleteSafe(list, cache[1])
            && Loaded(Removed(list, edited.content)) == map[1 := first.(id := 1)]
  {
    var older := first.(id := 1);
    assert HighestId([]) == 0 && Numbered([], first) == older;
    var one := Saved([], first);
    assert one == [older];
    assert FirstOf(one, edited.content) == 1 by { assert FirstOf(one[1..], edited.content) == 0; }
    var list := Saved(one, edited);
    assert list == [older, edited];
    assert [first, edited][1..] == [edited];
    assert SaveAll(one, [edited]) == list;
    assert CacheAll(map[1 := older], one, [edited]) == map[1 := older][1 := edited];
    assert AllUnshared(one, [edited]) by { assert AllUnshared(list, []); }
    assert FirstOf(list, edited.content) == 1;
    assert Removed(list, edited.content) == [older];
  }

  // ---------------------------------------------------------------- the objects

  class InMemoryServiceRegistryDao {
    var registeredServices: seq<Entry>

    constructor (list: seq<Entry>)
      ensures registeredServices == list
    {
      registeredServices := list;
    }

    method FindServiceById(id: JLong) returns (r: Option<Entry>)
      ensures r.Some? <==> exists i :: 0 <= i < |registeredServices| && registeredServices[i].id == id
      ensures r.Some? ==>
        exists i :: && 0 <= i < |registeredServices| && registeredServices[i] == r.value && r.value.id == id
                    && forall j :: 0 <= j < i ==> registeredServices[j].id != id
    {
      for i := 0 to |registeredServices|
        invariant forall j :: 0 <= j < i ==> registeredServices[j].id != id
      {
        if registeredServices[i].id == id {
          return Some(registeredServices[i]);
        }
      }
      return None;
    }

    method FindHighestId() returns (id: JLong)
      ensures id == HighestId(registeredServices)
    {
      id := 0;
      for i := 0 to |registeredServices|
        invariant id == HighestId(registeredServices[..i])
      {
        assert registeredServices[..i + 1][..i] == registeredServices[..i];
        if registeredServices[i].id > id {
          id := registeredServices[i].id;
        }
      }
      assert registeredServices[..|registeredServices|] == registeredServices;
    }

    /** `List.remove`: the first equal entry goes. */
    method Delete(e: Entry) returns (found: bool)
      modifies this
      ensures registeredServices == Removed(old(registeredServices), e.content)
      ensures found <==>
        exists i :: 0 <= i < |old(registeredServices)| && old(registeredServices)[i].content == e.content
    {
      found := false;
      for i := 0 to |registeredServices|
        invariant registeredServices == old(registeredServices) && !found
        invariant forall j :: 0 <= j < i ==> registeredServices[j].content != e.content
      {
        if registeredServices[i].content == e.content {
          assert i == FirstOf(registeredServices, e.content);
          registeredServices := registeredServices[..i] + registeredServices[i + 1..];
          return true;
        }
      }
    }

    method Save(e: Entry) returns (r: Entry)
      modifies this
      ensures r == Numbered(old(registeredServices), e)
      ensures registeredServices == Saved(old(registeredServices), e)
    {
      r := e;
      if r.id == NO_ID {
        var highest := FindHighestId();
        r := r.(id := Int64((highest as int) + 1));
      }
      var found := Delete(r);
      registeredServices := registeredServices + [r];
    }
  }

  class DefaultServicesManager {
    const serviceRegistryDao: InMemoryServiceRegistryDao
    var services: map<JLong, Entry>

    ghost predicate InStep()
      reads this, serviceRegistryDao
    {
      Agrees(services, serviceRegistryDao.registeredServices)
    }

    constructor (dao: InMemoryServiceRegistryDao)
      ensures serviceRegistryDao == dao && InStep()
    {
      serviceRegistryDao := dao;
      services := map[];
      new;
      Load();
    }

    method Load()
      modifies this
      ensures InStep()
    {
      var list := serviceRegistryDao.registeredServices;
      var localServices := map[];
      for i := 0 to |list|
        invariant localServices == Loaded(list[..i])
      {
        assert list[..i + 1] == list[..i] + [list[i]];
        LoadedAppend(list[..i], list[i]);
        localServices := localServices[list[i].id := list[i]];
      }
      assert list[..|list|] == list;
      services := localServices;
    }

    method Reload()
      modifies this
      ensures InStep() && (old(InStep()) ==> services == old(services))
    {
      Load();
    }

    method Save(e: Entry) returns (r: Entry)
      modifies this, serviceRegistryDao
      ensures r == Numbered(old(serviceRegistryDao.registeredServices), e)
      ensures services == old(services)[r.id := r]
      ensures serviceRegistryDao.registeredServices == Saved(old(serviceRegistryDao.registeredServices), e)
      ensures old(InStep()) ==> (InStep() <==> SaveSafe(old(serviceRegistryDao.registeredServices), r))
    {
      ghost var list := serviceRegistryDao.registeredServices;
      if InStep() {
        SaveAgrees(services, list, Numbered(list, e));
      }
      r := serviceRegistryDao.Save(e);
      services := services[r.id := r];
    }

    method Delete(id: JLong) returns (r: Option<Entry>)
      modifies this, serviceRegistryDao
      ensures r == if id in old(services) then Some(old(services)[id]) else None
      ensures services == old(services) - {id}
      ensures serviceRegistryDao.registeredServices
           == (if r.Some? then Removed(old(serviceRegistryDao.registeredServices), r.value.content)
               else old(serviceRegistryDao.registeredServices))
      ensures old(InStep()) ==>
        (InStep() <==> r.None? || DeleteSafe(old(serviceRegistryDao.registeredServices), r.value))
    {
      if id !in services {
        assert services - {id} == services;
        return None;
      }
      var e := services[id];
      if InStep() {
        DeleteAgrees(services, serviceRegistryDao.registeredServices, id);
      }
      var found := serviceRegistryDao.Delete(e);
      services := services - {id};
      return Some(e);
    }
  }
}
