/** The profiles table with its id counter, and the identity map that hands out one shared object for
    each id. The state is a value; ProfilesRepo ties its methods to the relations of this module. */
module ProfileStore {
  /** An entity object. The interface shares it by reference and edits it in place. */
  class Profile {
    var id: int
    var gid: int
    var data: string

    constructor (id: int, gid: int, data: string)
      ensures this.id == id && this.gid == gid && this.data == data
    {
      this.id, this.gid, this.data := id, gid, data;
    }
  }

  datatype Row = Row(gid: int, data: string)

  datatype Content = Content(id: int, row: Row)

  /** known: every object there has been; held: those that somebody holds a strong reference to, with
      what they contain. The identity map has weak references, so an entry can be locked exactly if its
      object is held. */
  datatype Store = Store(rows: map<int, Row>, lastId: int, cache: map<int, Profile>,
                         known: set<Profile>, held: map<Profile, Content>)

  predicate Wf(s: Store) {
    s.held.Keys <= s.known && forall id :: id in s.cache ==> s.cache[id] in s.known
  }

  predicate Live(s: Store, id: int) {
    id in s.cache && s.cache[id] in s.held
  }

  function Expired(s: Store, ids: set<int>): set<int> {
    set id | id in ids && !Live(s, id)
  }

  function SetOf(ids: seq<int>): set<int> {
    set i | 0 <= i < |ids| :: ids[i]
  }

  function Only(byId: map<int, Profile>, ids: set<int>): map<int, Profile> {
    map id | id in byId && id in ids :: byId[id]
  }

  /** The objects found, in the order of the ids asked for. */
  function Found(ids: seq<int>, byId: map<int, Profile>): seq<Profile> {
    if ids == [] then []
    else (if ids[0] in byId then [byId[ids[0]]] else []) + Found(ids[1..], byId)
  }

  lemma FoundAppend(ids: seq<int>, id: int, byId: map<int, Profile>)
    ensures Found(ids + [id], byId) == Found(ids, byId) + (if id in byId then [byId[id]] else [])
  {
    if ids != [] {
      assert (ids + [id])[1..] == ids[1..] + [id];
      FoundAppend(ids[1..], id, byId);
    }
  }

  lemma KeyOf<K, V>(m: map<K, V>, v: V) returns (k: K)
    requires v in m.Values
    ensures k in m && m[k] == v
  {
    k :| k in m && m[k] == v;
  }

  lemma InValues<K, V>(m: map<K, V>, k: K)
    requires k in m
    ensures m[k] in m.Values
  {}

  // ----- asking for profiles

  /** An object from byId is the live one of the identity map, or a new one loaded from its row. */
  ghost predicate Answers(s: Store, id: int, p: Profile, s': Store) {
    if Live(s, id) then p == s.cache[id]
    else
      && id in s.rows
      && p !in s.known
      && p in s'.held && s'.held[p] == Content(id, s.rows[id])
  }

  /** What asking for a set of ids may do: found are the ids that are live or have a row, each with one
      object, to which the identity map is bound afterwards. */
  ghost predicate Got(s: Store, ids: set<int>, byId: map<int, Profile>, s': Store) {
    && FindsIds(s, ids, byId)
    && (forall id :: id in byId ==> Answers(s, id, byId[id], s'))
    && LoadsApart(s, byId)
    && HoldsFound(s, byId, s')
    && s'.cache == Rebound(s, ids, byId)
    && s'.rows == s.rows && s'.lastId == s.lastId
  }

  ghost predicate FindsIds(s: Store, ids: set<int>, byId: map<int, Profile>) {
    forall id :: id in byId <==> id in ids && (Live(s, id) || id in s.rows)
  }

  ghost predicate LoadsApart(s: Store, byId: map<int, Profile>) {
    forall a, b :: a in byId && b in byId && a != b && !Live(s, a) ==> byId[a] != byId[b]
  }

  ghost predicate HoldsFound(s: Store, byId: map<int, Profile>, s': Store) {
    && s'.known == s.known + byId.Values
    && s'.held.Keys == s.held.Keys + byId.Values
    && forall p :: p in s.held ==> s'.held[p] == s.held[p]
  }

  function Rebound(s: Store, ids: set<int>, byId: map<int, Profile>): map<int, Profile> {
    (s.cache - Expired(s, ids)) + byId
  }

  /** GetProfile for each id in turn, keeping what it returns: byId says what for every id. */
  ghost predicate GotEach(states: seq<Store>, ids: seq<int>, byId: map<int, Profile>) {
    && |states| == |ids| + 1
    && forall i :: 0 <= i < |ids| ==> GotOne(states[i], ids[i], byId, states[i + 1])
  }

  ghost predicate GotOne(s: Store, id: int, byId: map<int, Profile>, s': Store) {
    Got(s, {id}, Only(byId, {id}), s')
  }

  /** The state after asking for the ids of the set only. */
  ghost function Partway(s: Store, ids: set<int>, byId: map<int, Profile>, s': Store): Store
    requires Only(byId, ids).Values <= s'.held.Keys
  {
    var now := Only(byId, ids);
    Store(s.rows, s.lastId, Rebound(s, ids, now), s.known + now.Values,
          map p | p in s.held.Keys + now.Values :: if p in s.held then s.held[p] else s'.held[p])
  }

  lemma GotFirst(s: Store, a: set<int>, b: set<int>, byId: map<int, Profile>, s': Store)
    requires Wf(s) && Got(s, a + b, byId, s')
    ensures Only(byId, a).Values <= s'.held.Keys
    ensures Got(s, a, Only(byId, a), Partway(s, a, byId, s'))
  {
    var now := Only(byId, a);
    forall p | p in now.Values ensures p in s'.held {
      var k := KeyOf(now, p);
      InValues(byId, k);
    }
    var mid := Partway(s, a, byId, s');
    forall id | id in now ensures Answers(s, id, now[id], mid) {
      assert Answers(s, id, byId[id], s');
      InValues(now, id);
    }
  }

  lemma LiveAfter(s: Store, ids: set<int>, byId: map<int, Profile>, s': Store, id: int)
    requires Wf(s) && Got(s, ids, byId, s')
    ensures Live(s', id) <==> if id in ids then id in byId else Live(s, id)
  {
    if id in ids {
      if id in byId { InValues(byId, id); }
      else { assert id in Expired(s, ids); }
    } else if id in s.cache && s.cache[id] in byId.Values {
      var k := KeyOf(byId, s.cache[id]);
      assert Answers(s, k, byId[k], s');
    }
  }

  /** An object loaded for the second part is still new after the first. */
  lemma GotWf(s: Store, ids: set<int>, byId: map<int, Profile>, s': Store)
    requires Wf(s) && Got(s, ids, byId, s')
    ensures Wf(s')
  {
    forall id | id in s'.cache ensures s'.cache[id] in s'.known {
      if id in byId { InValues(byId, id); }
    }
  }

  lemma NotYet(s: Store, a: set<int>, b: set<int>, byId: map<int, Profile>, s': Store, id: int)
    requires Wf(s) && Got(s, a + b, byId, s')
    requires id in byId && id !in a && !Live(s, id)
    requires Only(byId, a).Values <= s'.held.Keys
    ensures byId[id] !in Partway(s, a, byId, s').known
  {
    assert Answers(s, id, byId[id], s');
    var now := Only(byId, a);
    if byId[id] in now.Values {
      var k := KeyOf(now, byId[id]);
    }
  }

  lemma ValuesUnion(a: set<int>, b: set<int>, byId: map<int, Profile>)
    ensures Only(byId, a + b).Values == Only(byId, a).Values + Only(byId, b).Values
  {
    var now, later, all := Only(byId, a), Only(byId, b), Only(byId, a + b);
    forall p | p in all.Values ensures p in now.Values + later.Values {
      var k := KeyOf(all, p);
      if k in a { InValues(now, k); } else { InValues(later, k); }
    }
    forall p | p in now.Values + later.Values ensures p in all.Values {
      if p in now.Values {
        var k := KeyOf(now, p);
        InValues(all, k);
      } else {
        var k := KeyOf(later, p);
        InValues(all, k);
      }
    }
  }

  lemma GotSecond(s: Store, a: set<int>, b: set<int>, byId: map<int, Profile>, s': Store)
    requires Wf(s) && Got(s, a + b, byId, s')
    ensures Only(byId, a).Values <= s'.held.Keys
    ensures Got(Partway(s, a, byId, s'), b, Only(byId, b), s')
  {
    hide Answers, LoadsApart, FindsIds, HoldsFound, Rebound, Only, Wf;
    GotFirst(s, a, b, byId, s');
    var mid := Partway(s, a, byId, s');
    forall id | id in Only(byId, b) ensures Answers(mid, id, Only(byId, b)[id], s') {
      AnswersLater(s, a, b, byId, s', id);
    }
    FindsLater(s, a, b, byId, mid, s');
    CachePartway(s, a, b, byId, mid, s');
    OnlyAsked(s, a + b, byId);
    HoldsLater(s, a, b, byId, s');
  }

  lemma GotBounds(s: Store, ids: set<int>, byId: map<int, Profile>, s': Store)
    requires Got(s, ids, byId, s')
    ensures byId.Values <= s'.held.Keys
    ensures forall id :: id in byId ==> id in ids
  {}

  lemma OnlyAsked(s: Store, ids: set<int>, byId: map<int, Profile>)
    requires FindsIds(s, ids, byId)
    ensures Only(byId, ids) == byId
  {
    forall id ensures id in Only(byId, ids) <==> id in byId {}
  }

  lemma HoldsLater(s: Store, a: set<int>, b: set<int>, byId: map<int, Profile>, s': Store)
    requires HoldsFound(s, byId, s') && Only(byId, a + b) == byId
    requires Only(byId, a).Values <= s'.held.Keys
    ensures HoldsFound(Partway(s, a, byId, s'), Only(byId, b), s')
  {
    ValuesUnion(a, b, byId);
    var mid := Partway(s, a, byId, s');
    hide Rebound, Only;
    assert byId.Values == Only(byId, a).Values + Only(byId, b).Values;
    assert mid.held.Keys == s.held.Keys + Only(byId, a).Values;
    assert s'.held.Keys == mid.held.Keys + Only(byId, b).Values;
  }

  lemma HoldsTogether(s: Store, a: set<int>, b: set<int>, byId: map<int, Profile>, mid: Store, s': Store)
    requires HoldsFound(s, Only(byId, a), mid) && HoldsFound(mid, Only(byId, b), s')
    ensures HoldsFound(s, Only(byId, a + b), s')
  {
    ValuesUnion(a, b, byId);
    hide Only;
  }

  lemma FindsLater(s: Store, a: set<int>, b: set<int>, byId: map<int, Profile>, mid: Store, s': Store)
    requires Wf(s) && Got(s, a + b, byId, s')
    requires Got(s, a, Only(byId, a), mid)
    ensures FindsIds(mid, b, Only(byId, b)) && LoadsApart(mid, Only(byId, b))
  {
    var later := Only(byId, b);
    hide Answers, HoldsFound, Rebound;
    forall id ensures id in later <==> id in b && (Live(mid, id) || id in mid.rows) {
      LiveAfter(s, a, Only(byId, a), mid, id);
      hide Live;
    }
    forall x, y | x in later && y in later && x != y && !Live(mid, x) ensures later[x] != later[y] {
      LiveAfter(s, a, Only(byId, a), mid, x);
      hide Live;
    }
  }

  lemma AnswersLater(s: Store, a: set<int>, b: set<int>, byId: map<int, Profile>, s': Store, id: int)
    requires Wf(s) && Got(s, a + b, byId, s')
    requires Only(byId, a).Values <= s'.held.Keys
    requires id in Only(byId, b)
    ensures Answers(Partway(s, a, byId, s'), id, Only(byId, b)[id], s')
  {
    GotFirst(s, a, b, byId, s');
    var mid, now := Partway(s, a, byId, s'), Only(byId, a);
    LiveAfter(s, a, now, mid, id);
    assert Answers(s, id, byId[id], s');
    if !Live(mid, id) {
      NotYet(s, a, b, byId, s', id);
    } else if id in a {
      assert mid.cache[id] == now[id];
    }
  }

  lemma CachePartway(s: Store, a: set<int>, b: set<int>, byId: map<int, Profile>, mid: Store, s': Store)
    requires Wf(s) && Got(s, a + b, byId, s')
    requires Got(s, a, Only(byId, a), mid)
    ensures s'.cache == Rebound(mid, b, Only(byId, b))
  {
    hide Answers, HoldsFound, LoadsApart;
    var next := Rebound(mid, b, Only(byId, b));
    forall id ensures id in s'.cache <==> id in next
              ensures id in s'.cache ==> s'.cache[id] == next[id]
    {
      LiveAfter(s, a, Only(byId, a), mid, id);
    }
  }

  lemma GotTogether(s: Store, a: set<int>, b: set<int>, byId: map<int, Profile>, mid: Store, s': Store)
    requires Wf(s) && Got(s, a, Only(byId, a), mid)
    requires Got(mid, b, Only(byId, b), s')
    ensures Got(s, a + b, Only(byId, a + b), s')
  {
    hide Answers, LoadsApart, FindsIds, HoldsFound, Rebound, Only, Wf;
    forall id | id in Only(byId, a + b) ensures Answers(s, id, Only(byId, a + b)[id], s') {
      AnswersTogether(s, a, b, byId, mid, s', id);
    }
    FindsTogether(s, a, b, byId, mid, s');
    CacheTogether(s, a, b, byId, mid, s');
    HoldsTogether(s, a, b, byId, mid, s');
  }

  lemma FindsTogether(s: Store, a: set<int>, b: set<int>, byId: map<int, Profile>, mid: Store, s': Store)
    requires Wf(s) && Got(s, a, Only(byId, a), mid)
    requires Got(mid, b, Only(byId, b), s')
    ensures FindsIds(s, a + b, Only(byId, a + b)) && LoadsApart(s, Only(byId, a + b))
  {
    var all := Only(byId, a + b);
    forall id ensures id in all <==> id in a + b && (Live(s, id) || id in s.rows) {
      hide Answers, HoldsFound, Rebound, LoadsApart;
      LiveAfter(s, a, Only(byId, a), mid, id);
      hide Live;
    }
    forall x, y | x in all && y in all && x != y && !Live(s, x) ensures all[x] != all[y] {
      ApartTogether(s, a, b, byId, mid, s', x, y);
    }
  }

  lemma CacheTogether(s: Store, a: set<int>, b: set<int>, byId: map<int, Profile>, mid: Store, s': Store)
    requires Wf(s) && Got(s, a, Only(byId, a), mid)
    requires Got(mid, b, Only(byId, b), s')
    ensures s'.cache == Rebound(s, a + b, Only(byId, a + b))
  {
    hide Answers, HoldsFound, LoadsApart;
    var next := Rebound(s, a + b, Only(byId, a + b));
    forall id ensures id in s'.cache <==> id in next
              ensures id in s'.cache ==> s'.cache[id] == next[id]
    {
      LiveAfter(s, a, Only(byId, a), mid, id);
    }
  }

  lemma AnswersTogether(s: Store, a: set<int>, b: set<int>, byId: map<int, Profile>, mid: Store, s': Store, id: int)
    requires Wf(s) && Got(s, a, Only(byId, a), mid)
    requires Got(mid, b, Only(byId, b), s')
    requires id in Only(byId, a + b)
    ensures Answers(s, id, Only(byId, a + b)[id], s')
  {
    var now, later := Only(byId, a), Only(byId, b);
    LiveAfter(s, a, now, mid, id);
    if id in a {
      assert Answers(s, id, now[id], mid);
    } else {
      assert Answers(mid, id, later[id], s');
    }
  }

  lemma ApartTogether(s: Store, a: set<int>, b: set<int>, byId: map<int, Profile>, mid: Store, s': Store, x: int, y: int)
    requires Wf(s) && Got(s, a, Only(byId, a), mid)
    requires Got(mid, b, Only(byId, b), s')
    requires x in Only(byId, a + b) && y in Only(byId, a + b) && x != y && !Live(s, x)
    ensures byId[x] != byId[y]
  {
    var now, later := Only(byId, a), Only(byId, b);
    LiveAfter(s, a, now, mid, x);
    if x in a && y in a {
      assert now[x] != now[y];
    } else if x !in a && y !in a {
      assert later[x] != later[y];
    }
  }

  lemma SetOfStep(ids: seq<int>)
    requires ids != []
    ensures SetOf(ids) == SetOf(ids[..|ids| - 1]) + {ids[|ids| - 1]}
  {
    var n := |ids| - 1;
    assert ids == ids[..n] + [ids[n]];
    forall id | id in SetOf(ids) ensures id in SetOf(ids[..n]) + {ids[n]} {
      var i :| 0 <= i < |ids| && ids[i] == id;
      assert i < n ==> ids[..n][i] == id;
    }
    forall id | id in SetOf(ids[..n]) ensures id in SetOf(ids) {
      var i :| 0 <= i < n && ids[..n][i] == id;
      assert ids[i] == id;
    }
  }

  lemma OnlyOnly(byId: map<int, Profile>, a: set<int>, b: set<int>)
    ensures Only(Only(byId, a + b), a) == Only(byId, a)
    ensures Only(Only(byId, a + b), b) == Only(byId, b)
  {}

  /** Asking for a list of ids at once is asking for them one by one: the same ids are found, repeated
      ids with the same object, the same entries of the identity map expire and are bound. */
  lemma {:induction false} BatchIsOneByOne(s: Store, ids: seq<int>, byId: map<int, Profile>, s': Store)
      returns (states: seq<Store>)
    requires Wf(s) && Got(s, SetOf(ids), Only(byId, SetOf(ids)), s')
    ensures GotEach(states, ids, byId) && states[0] == s && states[|ids|] == s'
  {
    if ids == [] {
      assert s'.held == s.held && s'.cache == s.cache;
      states := [s];
    } else {
      var n := |ids| - 1;
      var a, b := SetOf(ids[..n]), {ids[n]};
      SetOfStep(ids);
      OnlyOnly(byId, a, b);
      var all := Only(byId, a + b);
      GotFirst(s, a, b, all, s');
      GotSecond(s, a, b, all, s');
      var mid := Partway(s, a, all, s');
      var front := BatchIsOneByOne(s, ids[..n], byId, mid);
      states := front + [s'];
      forall i | 0 <= i < |ids| ensures GotOne(states[i], ids[i], byId, states[i + 1]) {
        assert i < n ==> GotOne(front[i], ids[..n][i], byId, front[i + 1]);
      }
    }
  }

  /** And the other way round. */
  lemma {:induction false} OneByOneIsBatch(states: seq<Store>, ids: seq<int>, byId: map<int, Profile>)
    requires GotEach(states, ids, byId) && Wf(states[0])
    ensures Got(states[0], SetOf(ids), Only(byId, SetOf(ids)), states[|ids|])
  {
    if ids != [] {
      var n := |ids| - 1;
      var a, b := SetOf(ids[..n]), {ids[n]};
      SetOfStep(ids);
      forall i | 0 <= i < n ensures GotOne(states[..n + 1][i], ids[..n][i], byId, states[..n + 1][i + 1]) {
        assert GotOne(states[i], ids[i], byId, states[i + 1]);
      }
      OneByOneIsBatch(states[..n + 1], ids[..n], byId);
      assert GotOne(states[n], ids[n], byId, states[n + 1]);
      GotTogether(states[0], a, b, byId, states[n], states[n + 1]);
    }
  }

  // ----- the other operations

  datatype Option<T> = None | Some(value: T)

  /** The parts of a backup that a selective restore can apply. */
  datatype Parts = Parts(profiles: bool, routes: bool, settings: bool)

  /** What a backup holds of interest here: its profiles as they arrive in the table, and the rows of its
      counter table; None where the backup has no such table. */
  datatype Backup = Backup(profiles: Option<map<int, Row>>, counters: Option<set<int>>)

  /** COALESCE(MAX(id), 0) */
  ghost predicate IsCoalescedMax(ids: set<int>, m: int) {
    if ids == {} then m == 0 else m in ids && forall id :: id in ids ==> id <= m
  }

  ghost function MemberOf<T>(s: set<T>): (x: T)
    requires s != {}
    ensures x in s
  {
    var x :| x in s;
    x
  }

  lemma MaxStep(ids: set<int>, id: int, m: int)
    requires IsCoalescedMax(ids, m)
    ensures IsCoalescedMax(ids + {id}, if ids == {} || m < id then id else m)
  {}

  lemma MaxIsUnique(ids: set<int>, a: int, b: int)
    requires IsCoalescedMax(ids, a) && IsCoalescedMax(ids, b)
    ensures a == b
  {}

  lemma {:induction false} CoalescedMaxExists(ids: set<int>)
    ensures exists m :: IsCoalescedMax(ids, m)
    decreases |ids|
  {
    if ids == {} {
      assert IsCoalescedMax(ids, 0);
    } else {
      var id := MemberOf(ids);
      CoalescedMaxExists(ids - {id});
      var m :| IsCoalescedMax(ids - {id}, m);
      MaxStep(ids - {id}, id, m);
      assert ids - {id} + {id} == ids;
    }
  }

  ghost function CoalescedMax(ids: set<int>): (m: int)
    ensures IsCoalescedMax(ids, m)
  {
    CoalescedMaxExists(ids);
    var m :| IsCoalescedMax(ids, m);
    m
  }

  function Max(a: int, b: int): int {
    if a < b then b else a
  }

  ghost function Restored(s: Store, bak: Backup, parts: Parts): Store {
    var rows := if parts.profiles && bak.profiles.Some? then bak.profiles.value else s.rows;
    var lastId :=
      if parts.profiles || parts.routes then
        Max(Max(s.lastId, CoalescedMax(rows.Keys)),
            if bak.counters.Some? then CoalescedMax(bak.counters.value) else s.lastId)
      else s.lastId;
    s.(rows := rows, lastId := lastId)
  }

  function Saved(s: Store, p: Profile, stored: bool): Store
    requires p in s.held
  {
    var c := s.held[p];
    s.(rows := if stored then s.rows[c.id := c.row] else s.rows, cache := s.cache[c.id := p])
  }

  function Deleted(s: Store, ids: set<int>): Store {
    s.(rows := s.rows - ids, cache := s.cache - ids)
  }

  /** Deleting a group takes the rows of its profiles along. Entries and objects stay. */
  function WithoutGroup(s: Store, gid: int): Store {
    s.(rows := map id | id in s.rows && s.rows[id].gid != gid :: s.rows[id])
  }

  /** Giving a held object its id and group, binding it, and storing its row. */
  function Bound(s: Store, p: Profile, id: int, gid: int, stored: bool): Store {
    if p !in s.held then s else
    Saved(s.(held := s.held[p := Content(id, Row(gid, s.held[p].row.data))]), p, stored)
  }

  /** Binding objects one after the other to the ids from first on; rows are stored for the ids of a set. */
  function BoundAll(s: Store, ps: seq<Profile>, first: int, gid: int, stored: set<int>): (s': Store)
    ensures s'.held.Keys == s.held.Keys
  {
    if ps == [] then s
    else
      var n := |ps| - 1;
      Bound(BoundAll(s, ps[..n], first, gid, stored), ps[n], first + n, gid, first + n in stored)
  }

  /** The n ids that follow lastId. */
  function Block(lastId: int, n: nat): (block: set<int>)
    ensures forall id :: id in block <==> lastId < id <= lastId + n
  {
    if n == 0 then {} else Block(lastId, n - 1) + {lastId + n}
  }

  lemma {:induction false} BlockSize(lastId: int, n: nat)
    ensures |Block(lastId, n)| == n
  {
    if n > 0 { BlockSize(lastId, n - 1); }
  }

  // ----- runs

  /** reserved: ids taken from the counter whose object is not bound yet; issued: all ids ever taken. */
  datatype System = System(store: Store, reserved: set<int>, issued: set<int>)

  /** What the threads of the interface do. Taking ids from the counter is atomic in the database and
      needs no lock, so other steps can come between it and binding the objects; the rest runs under the
      repository's mutex. An object may be dropped between any two steps. Binding does not ask whether the
      object has an id already: a batch that lists it twice binds it twice. */
  datatype Action =
    | Create(made: Profile, row: Row)
    | Edit(edited: Profile, row: Row)
    | Drop(dropped: set<Profile>)
    | Get(ids: set<int>, byId: map<int, Profile>)
    | Reserve(n: nat)
    | Bind(bound: Profile, id: int, gid: int, stored: bool)
    | Save(saved: Profile, kept: bool)
    | Delete(gone: set<int>)
    | DeleteGroup(group: int)
    | Restore(bak: Backup, parts: Parts)
    | Restart
    | RestoreAll(rows: map<int, Row>, counter: int)

  ghost predicate Step(sys: System, a: Action, sys': System) {
    var s, s' := sys.store, sys'.store;
    match a
    case Reserve(n) =>
      && s' == s.(lastId := s.lastId + n)
      && sys'.reserved == sys.reserved + Block(s.lastId, n)
      && sys'.issued == sys.issued + Block(s.lastId, n)
    case Bind(p, id, gid, stored) =>
      && p in s.held && id in sys.reserved
      && sys' == System(Bound(s, p, id, gid, stored), sys.reserved - {id}, sys.issued)
    case Restart =>
      sys' == System(s.(cache := map[], held := map[]), {}, sys.issued)
    case _ =>
      sys'.reserved == sys.reserved && sys'.issued == sys.issued && StoreStep(s, a, s')
  }

  ghost predicate StoreStep(s: Store, a: Action, s': Store) {
    match a
    case Create(p, row) => p !in s.known && s' == s.(known := s.known + {p}, held := s.held[p := Content(-1, row)])
    case Edit(p, row) => p in s.held && s' == s.(held := s.held[p := Content(s.held[p].id, row)])
    case Drop(ps) => s' == s.(held := s.held - ps)
    case Get(ids, byId) => Got(s, ids, byId, s')
    case Save(p, stored) => p in s.held && s.held[p].id >= 0 && s' == Saved(s, p, stored)
    case Delete(ids) => s' == Deleted(s, ids)
    case DeleteGroup(gid) => s' == WithoutGroup(s, gid)
    case Restore(bak, parts) => s' == Restored(s, bak, parts)
    case RestoreAll(rows, counter) => s' == s.(rows := rows, lastId := counter)
    case _ => false
  }

  ghost predicate Run(states: seq<System>, actions: seq<Action>) {
    && |states| == |actions| + 1
    && forall i :: 0 <= i < |actions| ==> StepAt(states, actions, i)
  }

  ghost predicate StepAt(states: seq<System>, actions: seq<Action>, i: nat)
    requires |states| == |actions| + 1 && i < |actions|
  {
    Step(states[i], actions[i], states[i + 1])
  }

  // ----- fresh ids

  /** No id in use is ahead of the counter. */
  ghost predicate Behind(sys: System) {
    var s := sys.store;
    && Wf(s)
    && (forall id :: id in s.rows || id in s.cache || id in sys.issued ==> id <= s.lastId)
    && (forall p :: p in s.held ==> s.held[p].id <= s.lastId)
    && sys.reserved <= sys.issued
    && s.lastId >= 0
  }

  /** The state over a new database. */
  const NEW := System(Store(map[], 0, map[], {}, map[]), {}, {})

  lemma NewIsBehind()
    ensures Behind(NEW)
  {}

  lemma StepKeepsBehind(sys: System, a: Action, sys': System)
    requires Behind(sys) && Step(sys, a, sys') && !a.RestoreAll?
    ensures Behind(sys') && sys.store.lastId <= sys'.store.lastId && sys.issued <= sys'.issued
  {
    match a
    case Get(ids, byId) =>
      GotWf(sys.store, ids, byId, sys'.store);
      GetKeepsBehind(sys, ids, byId, sys');
    case _ =>
  }

  lemma GetKeepsBehind(sys: System, ids: set<int>, byId: map<int, Profile>, sys': System)
    requires Behind(sys) && Step(sys, Get(ids, byId), sys')
    ensures Behind(sys')
  {
    var s, s' := sys.store, sys'.store;
    GotWf(s, ids, byId, s');
    forall p | p in s'.held ensures s'.held[p].id <= s'.lastId {
      if p !in s.held {
        var k := KeyOf(byId, p);
        assert Answers(s, k, byId[k], s');
        if Live(s, k) { assert false; }
      }
    }
    forall id | id in byId ensures id <= s'.lastId {
      assert Answers(s, id, byId[id], s');
    }
  }

  lemma {:induction false} RunKeepsBehind(states: seq<System>, actions: seq<Action>, i: nat, j: nat)
    requires Run(states, actions) && i <= j < |states|
    requires Behind(states[i])
    requires forall k :: i <= k < j ==> !actions[k].RestoreAll?
    ensures Behind(states[j]) && states[i].store.lastId <= states[j].store.lastId && states[i].issued <= states[j].issued
  {
    if i < j {
      RunKeepsBehind(states, actions, i, j - 1);
      assert StepAt(states, actions, j - 1);
      StepKeepsBehind(states[j - 1], actions[j - 1], states[j]);
    }
  }

  /** Over every run of adding, deleting, saving, selective restores and restarts, ids taken from the
      counter are those of no row, no bound or held object, and no earlier allocation. */
  lemma FreshIds(states: seq<System>, actions: seq<Action>, j: nat)
    requires Run(states, actions) && Behind(states[0])
    requires j < |actions| && actions[j].Reserve?
    requires forall k :: 0 <= k < j ==> !actions[k].RestoreAll?
    ensures var now, block := states[j], Block(states[j].store.lastId, actions[j].n);
      && |block| == actions[j].n
      && block !! now.store.rows.Keys && block !! now.store.cache.Keys
      && (forall p :: p in now.store.held ==> now.store.held[p].id !in block)
      && forall i :: 0 <= i < j && actions[i].Reserve? ==> Block(states[i].store.lastId, actions[i].n) !! block
  {
    RunKeepsBehind(states, actions, 0, j);
    BlockSize(states[j].store.lastId, actions[j].n);
    forall i | 0 <= i < j && actions[i].Reserve?
      ensures Block(states[i].store.lastId, actions[i].n) !! Block(states[j].store.lastId, actions[j].n)
    {
      RunKeepsBehind(states, actions, 0, i);
      assert StepAt(states, actions, i);
      StepKeepsBehind(states[i], actions[i], states[i + 1]);
      RunKeepsBehind(states, actions, i + 1, j);
    }
  }

  /** Replacing the whole database takes the counter back: ids taken afterwards repeat none that was
      handed out before if and only if the restored counter is not behind them. */
  lemma FreshAfterRestoreAll(sys: System, rows: map<int, Row>, counter: int, sys': System)
    requires Behind(sys) && Step(sys, RestoreAll(rows, counter), sys')
    ensures (forall n: nat :: Block(sys'.store.lastId, n) !! sys.issued) <==> (forall id :: id in sys.issued ==> id <= counter)
  {
    if id :| id in sys.issued && id > counter {
      var n := id - counter;
      assert id in Block(counter, n);
    }
  }

  // ----- one object for each id

  predicate Bindings(s: Store, p: Profile)
    requires p in s.held
  {
    var id := s.held[p].id;
    (id in s.cache && s.cache[id] == p) || (id !in s.rows && !Live(s, id))
  }

  ghost predicate OneEach(s: Store) {
    forall p, q :: p in s.held && q in s.held && s.held[p].id == s.held[q].id >= 0 ==> p == q
  }

  ghost predicate AllBound(s: Store) {
    forall p :: p in s.held && s.held[p].id >= 0 ==> Bindings(s, p)
  }

  ghost predicate Natural(s: Store) {
    forall id :: id in s.rows || id in s.cache ==> id >= 0
  }

  ghost predicate Unused(s: Store, id: int) {
    && id >= 0 && id !in s.rows && id !in s.cache
    && forall p :: p in s.held ==> s.held[p].id != id
  }

  ghost predicate InFlight(sys: System) {
    forall id :: id in sys.reserved ==> Unused(sys.store, id)
  }

  /** No two held objects share an id, and the identity map finds the one there is, unless its row was
      deleted; no id in flight is in use. */
  ghost predicate Unique(sys: System) {
    Behind(sys) && Consistent(sys)
  }

  ghost predicate Consistent(sys: System) {
    InFlight(sys) && OneEach(sys.store) && AllBound(sys.store) && Natural(sys.store)
  }

  /** What the identity map finds for an id has that id. */
  ghost predicate Named(s: Store) {
    forall id :: Live(s, id) ==> s.held[s.cache[id]].id == id
  }

  lemma NewIsUnique()
    ensures Unique(NEW) && Named(NEW.store)
  {}

  lemma StepKeepsUnique(sys: System, a: Action, sys': System)
    requires Unique(sys) && Step(sys, a, sys') && !a.Restore? && !a.RestoreAll?
    ensures Unique(sys')
  {
    StepKeepsBehind(sys, a, sys');
    hide Behind, Consistent;
    match a
    case Get(ids, byId) => GetKeepsUnique(sys, ids, byId, sys');
    case Bind(p, id, gid, stored) => BindKeepsUnique(sys, p, id, gid, stored, sys');
    case Save(p, stored) => SaveKeepsUnique(sys, p, stored, sys');
    case Create(p, row) => CreateKeepsUnique(sys, p, row, sys');
    case Edit(p, row) => EditKeepsUnique(sys, p, row, sys');
    case Drop(ps) => DropKeepsUnique(sys, ps, sys');
    case Reserve(n) => ReserveKeepsUnique(sys, n, sys');
    case Delete(ids) => DeleteKeepsUnique(sys, ids, sys');
    case DeleteGroup(gid) => DeleteGroupKeepsUnique(sys, gid, sys');
    case Restart => RestartMakesUnique(sys, sys');
  }

  lemma EditKeepsUnique(sys: System, p: Profile, row: Row, sys': System)
    requires Unique(sys) && Step(sys, Edit(p, row), sys')
    ensures Consistent(sys')
  {
    hide Behind;
  }

  lemma DropKeepsUnique(sys: System, ps: set<Profile>, sys': System)
    requires Unique(sys) && Step(sys, Drop(ps), sys')
    ensures Consistent(sys')
  {
    hide Behind;
  }

  lemma DeleteKeepsUnique(sys: System, ids: set<int>, sys': System)
    requires Unique(sys) && Step(sys, Delete(ids), sys')
    ensures Consistent(sys')
  {
    hide Behind;
  }

  lemma DeleteGroupKeepsUnique(sys: System, gid: int, sys': System)
    requires Unique(sys) && Step(sys, DeleteGroup(gid), sys')
    ensures Consistent(sys')
  {
    hide Behind;
  }

  /** Deleting the group of a held profile takes its row, yet the profile is still found until it is dropped,
      and then no longer. */
  lemma FoundUntilDropped(sys: System, p: Profile, sys': System)
    requires Unique(sys) && p in sys.store.held
    requires var id := sys.store.held[p].id; Live(sys.store, id) && sys.store.cache[id] == p && id in sys.store.rows
    requires Step(sys, DeleteGroup(sys.store.rows[sys.store.held[p].id].gid), sys')
    ensures var id := sys.store.held[p].id;
      && id !in sys'.store.rows && Got(sys'.store, {id}, map[id := p], sys'.store)
      && forall byId, s' :: Got(sys'.store.(held := sys'.store.held - {p}), {id}, byId, s') ==> byId == map[]
  {
    hide Consistent, Got;
    var s, id := sys'.store, sys.store.held[p].id;
    assert Live(s, id);
    GotLive(s, id, s);
    var without := s.(held := s.held - {p});
    forall byId, s' | Got(without, {id}, byId, s') ensures byId == map[] {
      FoundNothing(without, id, byId, s');
    }
  }

  /** After a deletion, asking for any of the ids finds nothing; asking for others is not affected. */
  lemma NotFoundAfterDelete(s: Store, gone: set<int>, ids: set<int>, byId: map<int, Profile>, s': Store)
    requires Got(Deleted(s, gone), ids, byId, s')
    ensures forall id :: id in gone ==> id !in byId
    ensures forall id :: id in byId <==> id in ids && id !in gone && (Live(s, id) || id in s.rows)
    ensures ids <= gone ==> byId == map[]
  {
    hide Answers, LoadsApart, HoldsFound, Rebound;
    if ids <= gone {
      forall k ensures k !in byId {}
      assert byId.Keys == {};
    }
  }

  /** What was saved comes back: once the object is dropped, asking for its id loads a new object with the
      contents saved. */
  lemma SavedComesBack(s: Store, p: Profile, dropped: Store, byId: map<int, Profile>, s': Store)
    requires StoreStep(s, Save(p, true), dropped)
    requires Got(dropped.(held := dropped.held - {p}), {s.held[p].id}, byId, s')
    ensures var id := s.held[p].id;
      && id in byId && byId[id] !in dropped.known
      && byId[id] in s'.held && s'.held[byId[id]] == s.held[p]
  {
    hide LoadsApart, Rebound;
    var id, t := s.held[p].id, dropped.(held := dropped.held - {p});
    assert !Live(t, id) && id in t.rows;
    assert Answers(t, id, byId[id], s');
  }

  /** And so does what was added. */
  lemma AddedComesBack(s: Store, p: Profile, id: int, gid: int, byId: map<int, Profile>, s': Store)
    requires p in s.held
    requires var t := Bound(s, p, id, gid, true); Got(t.(held := t.held - {p}), {id}, byId, s')
    ensures id in byId && byId[id] !in s.known
    ensures byId[id] in s'.held && s'.held[byId[id]] == Content(id, Row(gid, s.held[p].row.data))
  {
    hide LoadsApart, HoldsFound, Rebound;
    var b := Bound(s, p, id, gid, true);
    var t := b.(held := b.held - {p});
    assert !Live(t, id) && id in t.rows;
    assert Answers(t, id, byId[id], s');
  }

  /** What a backup holds comes back: after the restore and a restart, exactly its ids are found, each with
      its row. */
  lemma RestoredComesBack(s: Store, bak: Backup, parts: Parts, ids: set<int>, byId: map<int, Profile>, s': Store)
    requires parts.profiles && bak.profiles.Some?
    requires Got(Restored(s, bak, parts).(cache := map[], held := map[]), ids, byId, s')
    ensures forall id :: id in byId <==> id in ids && id in bak.profiles.value
    ensures forall id :: id in byId ==> byId[id] in s'.held && s'.held[byId[id]] == Content(id, bak.profiles.value[id])
  {
    hide LoadsApart, HoldsFound, Rebound;
    var t := Restored(s, bak, parts).(cache := map[], held := map[]);
    forall id | id in byId ensures byId[id] in s'.held && s'.held[byId[id]] == Content(id, bak.profiles.value[id]) {
      assert Answers(t, id, byId[id], s');
    }
  }

  lemma FoundNothing(s: Store, id: int, byId: map<int, Profile>, s': Store)
    requires Got(s, {id}, byId, s') && !Live(s, id) && id !in s.rows
    ensures byId == map[]
  {
    hide Answers, LoadsApart, HoldsFound, Rebound, Live;
    assert forall k :: k !in byId;
  }

  lemma OneValue<K, V>(k: K, v: V)
    ensures map[k := v].Values == {v}
  {
    var m := map[k := v];
    InValues(m, k);
    forall w | w in m.Values ensures w == v {
      var l := KeyOf(m, w);
    }
  }

  lemma GotLive(s: Store, id: int, s': Store)
    requires Wf(s) && Live(s, id) && s' == s
    ensures Got(s, {id}, map[id := s.cache[id]], s')
  {
    var byId := map[id := s.cache[id]];
    OneValue(id, s.cache[id]);
    assert s.known + byId.Values == s.known && s.held.Keys + byId.Values == s.held.Keys;
    var next := Rebound(s, {id}, byId);
    forall k ensures k in s'.cache <==> k in next
             ensures k in s'.cache ==> s'.cache[k] == next[k]
    {}
  }

  lemma CreateKeepsUnique(sys: System, p: Profile, row: Row, sys': System)
    requires Unique(sys) && Step(sys, Create(p, row), sys')
    ensures Consistent(sys')
  {
    assert forall id :: Live(sys'.store, id) ==> Live(sys.store, id);
  }

  lemma ReserveKeepsUnique(sys: System, n: nat, sys': System)
    requires Unique(sys) && Step(sys, Reserve(n), sys')
    ensures Consistent(sys')
  {
    assert forall id :: Live(sys'.store, id) <==> Live(sys.store, id);
    assert forall p :: p in sys.store.held ==> (Bindings(sys.store, p) <==> Bindings(sys'.store, p));
  }

  /** An id that is asked for and found comes with the only held object that has it, if any has; the
      object has it exactly if it was loaded or the identity map names it rightly. */
  lemma TheObject(sys: System, ids: set<int>, byId: map<int, Profile>, sys': System, id: int)
    requires Unique(sys) && Step(sys, Get(ids, byId), sys')
    requires id in byId
    ensures forall p :: p in sys'.store.held && sys'.store.held[p].id == id ==> p == byId[id]
    ensures byId[id] in sys'.store.held
    ensures sys'.store.held[byId[id]].id == id
      <==> (Live(sys.store, id) ==> sys.store.held[sys.store.cache[id]].id == id)
  {
    var s, s' := sys.store, sys'.store;
    assert Answers(s, id, byId[id], s');
    assert id >= 0;
    InValues(byId, id);
    forall p | p in s'.held && s'.held[p].id == id ensures p == byId[id] {
      if p in s.held {
        assert Bindings(s, p);
      } else {
        var k := KeyOf(byId, p);
        assert Answers(s, k, byId[k], s');
      }
    }
  }

  lemma GetKeepsUnique(sys: System, ids: set<int>, byId: map<int, Profile>, sys': System)
    requires Unique(sys) && Step(sys, Get(ids, byId), sys')
    ensures Consistent(sys')
  {
    var s, s' := sys.store, sys'.store;
    forall p | p in s'.held && s'.held[p].id >= 0
      ensures s'.held[p].id in byId ==> p == byId[s'.held[p].id]
      ensures s'.held[p].id !in byId ==> p in s.held && s.held[p] == s'.held[p]
      ensures Bindings(s', p)
    {
      HeldAfterGet(sys, ids, byId, sys', p);
    }
    forall id | id in sys'.reserved ensures Unused(s', id) {
      assert Unused(s, id);
      forall p | p in s'.held ensures s'.held[p].id != id {
        if p !in s.held {
          var k := KeyOf(byId, p);
          assert Answers(s, k, byId[k], s');
        }
      }
    }
  }

  lemma HeldAfterGet(sys: System, ids: set<int>, byId: map<int, Profile>, sys': System, p: Profile)
    requires Unique(sys) && Step(sys, Get(ids, byId), sys')
    requires p in sys'.store.held && sys'.store.held[p].id >= 0
    ensures var id := sys'.store.held[p].id;
      && (id in byId ==> p == byId[id])
      && (id !in byId ==> p in sys.store.held && sys.store.held[p] == sys'.store.held[p])
    ensures Bindings(sys'.store, p)
  {
    var s, s' := sys.store, sys'.store;
    var id := s'.held[p].id;
    if id in byId {
      TheObject(sys, ids, byId, sys', id);
    } else {
      if p !in s.held { LoadedUnderItsId(s, ids, byId, s', p); }
      assert Bindings(s, p);
      LiveAfter(s, ids, byId, s', id);
    }
  }

  lemma LoadedUnderItsId(s: Store, ids: set<int>, byId: map<int, Profile>, s': Store, p: Profile)
    requires Got(s, ids, byId, s') && p in s'.held && p !in s.held
    ensures s'.held[p].id in byId && byId[s'.held[p].id] == p
  {
    var k := KeyOf(byId, p);
    assert Answers(s, k, byId[k], s');
  }

  /** An object is bound again: the identity map has an entry with it already. */
  ghost predicate Rebinds(s: Store, a: Action) {
    a.Bind? && exists id :: id in s.cache && s.cache[id] == a.bound
  }

  /** The only step after which the identity map can find an object with another id is binding an object
      again, and it always does that. */
  lemma NamedExactly(sys: System, a: Action, sys': System)
    requires Unique(sys) && Named(sys.store) && Step(sys, a, sys')
    ensures Named(sys'.store) <==> !Rebinds(sys.store, a)
  {
    var s, s' := sys.store, sys'.store;
    hide Behind;
    match a
    case Bind(p, id, gid, stored) => BindNamed(sys, p, id, gid, stored, sys');
    case Get(ids, byId) =>
      forall id | Live(s', id) ensures s'.held[s'.cache[id]].id == id {
        GotNamed(sys, ids, byId, sys', id);
      }
    case Create(p, row) =>
      assert Wf(s) by { UniqueIsWf(sys); }
      assert forall id :: Live(s', id) ==> Live(s, id);
    case _ =>
  }

  lemma UniqueIsWf(sys: System)
    requires Unique(sys)
    ensures Wf(sys.store)
  {}

  lemma GotNamed(sys: System, ids: set<int>, byId: map<int, Profile>, sys': System, id: int)
    requires Unique(sys) && Named(sys.store) && Step(sys, Get(ids, byId), sys') && Live(sys'.store, id)
    ensures sys'.store.held[sys'.store.cache[id]].id == id
  {
    LiveAfter(sys.store, ids, byId, sys'.store, id);
    if id in byId { TheObject(sys, ids, byId, sys', id); }
  }

  lemma BindNamed(sys: System, p: Profile, id: int, gid: int, stored: bool, sys': System)
    requires Unique(sys) && Named(sys.store) && Step(sys, Bind(p, id, gid, stored), sys')
    ensures Named(sys'.store) <==> !Rebinds(sys.store, Bind(p, id, gid, stored))
  {
    hide Behind;
    var s, s' := sys.store, sys'.store;
    assert Unused(s, id);
    if k :| k in s.cache && s.cache[k] == p {
      assert k != id && s'.cache[k] == p && s'.held[p].id == id;
      assert Live(s', k);
    } else {
      forall k | Live(s', k) ensures s'.held[s'.cache[k]].id == k {
        if k != id { assert Live(s, k); }
      }
    }
  }

  lemma BindKeepsUnique(sys: System, p: Profile, id: int, gid: int, stored: bool, sys': System)
    requires Unique(sys) && Step(sys, Bind(p, id, gid, stored), sys')
    ensures Consistent(sys')
  {
    assert Unused(sys.store, id);
    hide Behind;
  }

  lemma SaveKeepsUnique(sys: System, p: Profile, stored: bool, sys': System)
    requires Unique(sys) && Step(sys, Save(p, stored), sys')
    ensures Consistent(sys')
  {
    hide Behind;
  }

  /** A restart forgets all objects, so it is enough that the rows have proper ids. */
  lemma RestartMakesUnique(sys: System, sys': System)
    requires Behind(sys) && Step(sys, Restart, sys')
    requires forall id :: id in sys.store.rows ==> id >= 0
    ensures Consistent(sys')
  {}

  /** The backups that the program makes hold profiles with proper ids. */
  ghost predicate ProperBackups(actions: seq<Action>) {
    forall i :: 0 <= i < |actions| && actions[i].Restore? && actions[i].bak.profiles.Some? ==>
      forall id :: id in actions[i].bak.profiles.value ==> id >= 0
  }

  /** The program restarts after every restore, and never replaces the whole database. */
  ghost predicate RestartsAfterRestore(actions: seq<Action>) {
    && (forall i :: 0 <= i < |actions| ==> !actions[i].RestoreAll?)
    && forall i :: 0 <= i < |actions| - 1 ==> RestartFollows(actions, i)
  }

  ghost predicate RestartFollows(actions: seq<Action>, i: nat)
    requires i < |actions| - 1
  {
    actions[i].Restore? ==> actions[i + 1].Restart?
  }

  /** Over every such run there is never more than one held object for an id, and the identity map finds
      it, except between a restore and the restart. */
  lemma {:induction false} OneObjectForEachId(states: seq<System>, actions: seq<Action>, i: nat)
    requires Run(states, actions) && Unique(states[0]) && i < |states|
    requires RestartsAfterRestore(actions) && ProperBackups(actions)
    ensures if i > 0 && actions[i - 1].Restore? then Behind(states[i]) && (forall id :: id in states[i].store.rows ==> id >= 0)
            else Unique(states[i])
  {
    if i > 0 {
      var a := actions[i - 1];
      assert StepAt(states, actions, i - 1);
      assert i > 1 ==> RestartFollows(actions, i - 2);
      hide Run, Step, Unique;
      OneObjectForEachId(states, actions, i - 1);
      if i > 1 && actions[i - 2].Restore? {
        AfterRestart(states[i - 1], states[i]);
      } else if a.Restore? {
        AfterRestore(states[i - 1], a, states[i]);
      } else {
        StepKeepsUnique(states[i - 1], a, states[i]);
      }
    }
  }

  /** And over every run that binds no object twice, what the identity map finds for an id has that id. */
  lemma {:induction false} NamedUntilRebound(states: seq<System>, actions: seq<Action>, i: nat)
    requires Run(states, actions) && Unique(states[0]) && Named(states[0].store) && i < |states|
    requires RestartsAfterRestore(actions) && ProperBackups(actions)
    requires forall j :: 0 <= j < i ==> !Rebinds(states[j].store, actions[j])
    ensures Named(states[i].store)
  {
    if i > 0 {
      NamedUntilRebound(states, actions, i - 1);
      OneObjectForEachId(states, actions, i - 1);
      assert StepAt(states, actions, i - 1);
      assert i > 1 ==> RestartFollows(actions, i - 2);
      hide Run, Unique;
      if i > 1 && actions[i - 2].Restore? {
        hide Behind;
      } else {
        NamedExactly(states[i - 1], actions[i - 1], states[i]);
      }
    }
  }

  lemma AfterRestart(sys: System, sys': System)
    requires Behind(sys) && Step(sys, Restart, sys')
    requires forall id :: id in sys.store.rows ==> id >= 0
    ensures Unique(sys')
  {
    StepKeepsBehind(sys, Restart, sys');
    RestartMakesUnique(sys, sys');
  }

  lemma AfterRestore(sys: System, a: Action, sys': System)
    requires Unique(sys) && Step(sys, a, sys') && a.Restore?
    requires a.bak.profiles.Some? ==> forall id :: id in a.bak.profiles.value ==> id >= 0
    ensures Behind(sys') && forall id :: id in sys'.store.rows ==> id >= 0
  {
    StepKeepsBehind(sys, a, sys');
  }

  /** The state after loading p for an id that is not live but has a row. */
  function Loaded(s: Store, id: int, p: Profile): Store
    requires id in s.rows
  {
    s.(cache := s.cache[id := p], known := s.known + {p}, held := s.held[p := Content(id, s.rows[id])])
  }

  /** Without the restart: after a selective restore, asking for the id of a held object q loads a second
      object p for it exactly if the identity map does not find q, which was deleted, and the restore
      brought a row with its id. */
  lemma SecondObjectExactly(sys: System, bak: Backup, parts: Parts, sys': System, q: Profile, p: Profile)
    requires Unique(sys) && Step(sys, Restore(bak, parts), sys')
    requires q in sys.store.held && sys.store.held[q].id >= 0 && p !in sys.store.known
    ensures var id := sys.store.held[q].id;
      id in sys'.store.rows && Got(sys'.store, {id}, map[id := p], Loaded(sys'.store, id, p))
      <==> id in sys'.store.rows && !(id in sys.store.cache && sys.store.cache[id] == q)
  {
    var id := sys.store.held[q].id;
    assert Bindings(sys.store, q);
    assert Live(sys'.store, id) <==> Live(sys.store, id);
    if id in sys'.store.rows {
      if Live(sys'.store, id) {
        LiveIsNotLoaded(sys'.store, id, p);
      } else {
        LoadedIsGot(sys'.store, id, p);
      }
    }
  }

  lemma LoadedIsGot(s: Store, id: int, p: Profile)
    requires id in s.rows && !Live(s, id) && p !in s.known && Wf(s)
    ensures Got(s, {id}, map[id := p], Loaded(s, id, p))
  {
    var byId, s' := map[id := p], Loaded(s, id, p);
    assert byId.Values == {p} by {
      InValues(byId, id);
      forall v | v in byId.Values ensures v == p {
        var k := KeyOf(byId, v);
      }
    }
    var next := Rebound(s, {id}, byId);
    forall k ensures k in s'.cache <==> k in next
             ensures k in s'.cache ==> s'.cache[k] == next[k]
    {}
  }

  lemma LiveIsNotLoaded(s: Store, id: int, p: Profile)
    requires id in s.rows && Live(s, id) && p !in s.known && Wf(s)
    ensures !Got(s, {id}, map[id := p], Loaded(s, id, p))
  {
    var byId := map[id := p];
    assert id in byId && byId[id] == p;
  }
}
