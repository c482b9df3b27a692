/** ProfilesRepo and the part of Database it uses: the identity map, loading profiles in batches, adding,
    saving and deleting them, and the selective restore, tied to the transitions of ProfileStore. */
module Profiles {
  import opened ProfileStore

  const BATCH_LIMIT_READ := 4096
  const INSERT_CHUNK := 1500 / 12

  datatype InsertRow = InsertRow(id: int, row: Row)

  method AnyOf<T(==)>(s: set<T>) returns (x: T)
    requires s != {}
    ensures x in s
  {
    x :| x in s;
  }

  function IdsOf(rows: seq<InsertRow>): set<int> {
    set i | 0 <= i < |rows| :: rows[i].id
  }

  /** The rows by their ids, later ones on top. */
  function Inserted(rows: seq<InsertRow>): (m: map<int, Row>)
    ensures m.Keys == IdsOf(rows)
  {
    if rows == [] then map[]
    else
      var n := |rows| - 1;
      assert IdsOf(rows) == IdsOf(rows[..n]) + {rows[n].id} by { IdsOfStep(rows); }
      Inserted(rows[..n])[rows[n].id := rows[n].row]
  }

  lemma IdsOfStep(rows: seq<InsertRow>)
    requires rows != []
    ensures IdsOf(rows) == IdsOf(rows[..|rows| - 1]) + {rows[|rows| - 1].id}
  {
    var n := |rows| - 1;
    forall id | id in IdsOf(rows) ensures id in IdsOf(rows[..n]) + {rows[n].id} {
      var i :| 0 <= i < |rows| && rows[i].id == id;
      assert i < n ==> rows[..n][i].id == id;
    }
    forall id | id in IdsOf(rows[..n]) ensures id in IdsOf(rows) {
      var i :| 0 <= i < n && rows[..n][i].id == id;
      assert rows[i].id == id;
    }
  }

  class Database {
    var profiles: map<int, Row>
    var groups: set<int>
    var profileLastId: int

    constructor ()
      ensures profiles == map[] && groups == {} && profileLastId == 0
    {
      profiles, groups, profileLastId := map[], {}, 0;
    }

    /** SELECT COALESCE(MAX(id), 0). */
    method MaxId(ids: set<int>) returns (m: int)
      ensures m == CoalescedMax(ids)
    {
      m := 0;
      var todo := ids;
      assert ids - todo == {};
      while todo != {}
        invariant todo <= ids
        invariant IsCoalescedMax(ids - todo, m)
        decreases |todo|
      {
        var id := AnyOf(todo);
        MaxStep(ids - todo, id, m);
        assert ids - (todo - {id}) == (ids - todo) + {id};
        if todo == ids || m < id { m := id; }
        todo := todo - {id};
      }
      assert ids - todo == ids;
      MaxIsUnique(ids, m, CoalescedMax(ids));
    }

    /** restoreSelective: the statements run in a transaction, and one that fails rolls it back. failAt is
        the number of the statement that fails, if it is reached; 0 is none. */
    method RestoreSelective(bak: Backup, bakGroups: Option<set<int>>, parts: Parts, failAt: nat) returns (ok: bool)
      modifies this
      ensures var s := Store(old(profiles), old(profileLastId), map[], {}, map[]);
        var s' := if ok then Restored(s, bak, parts) else s;
        profiles == s'.rows && profileLastId == s'.lastId
      ensures profiles == if ok && parts.profiles && bak.profiles.Some? then bak.profiles.value else old(profiles)
      ensures ok && (parts.profiles || parts.routes) ==> LeastAhead(profileLastId, old(profileLastId), profiles.Keys, bak.counters)
      ensures !ok || !(parts.profiles || parts.routes) ==> profileLastId == old(profileLastId)
      ensures groups == if ok && parts.profiles && bakGroups.Some? then bakGroups.value else old(groups)
      ensures failAt == 0 ==> ok
    {
      if !(parts.profiles || parts.routes || parts.settings) { return true; }
      var journal := (profiles, groups, profileLastId);
      ghost var was := Store(profiles, profileLastId, map[], {}, map[]);
      if parts.profiles || parts.routes { RestoredCounter(was, bak, parts); }
      ok := RestoreStatements(bak, bakGroups, parts, failAt);
      if !ok {
        profiles, groups, profileLastId := journal.0, journal.1, journal.2;
      }
    }

    /** GroupsRepo's DeleteGroup: the foreign key takes the group's profiles along. */
    method DeleteGroup(gid: int)
      modifies this`groups, this`profiles
      ensures groups == old(groups) - {gid}
      ensures profiles == WithoutGroup(Store(old(profiles), profileLastId, map[], {}, map[]), gid).rows
      ensures forall id :: id in profiles <==> id in old(profiles) && old(profiles)[id].gid != gid
      ensures forall id :: id in profiles ==> profiles[id] == old(profiles)[id]
    {
      groups := groups - {gid};
      profiles := map id | id in profiles && profiles[id].gid != gid :: profiles[id];
    }

    /** Each table is deleted and filled again; then the counter is moved ahead of what was restored. A
        statement that fails leaves what was done before it. */
    method RestoreStatements(bak: Backup, bakGroups: Option<set<int>>, parts: Parts, failAt: nat) returns (ok: bool)
      modifies this
      ensures ok ==>
        var s' := Restored(Store(old(profiles), old(profileLastId), map[], {}, map[]), bak, parts);
        profiles == s'.rows && profileLastId == s'.lastId
      ensures ok ==> groups == if parts.profiles && bakGroups.Some? then bakGroups.value else old(groups)
      ensures failAt == 0 ==> ok
    {
      if failAt == 1 { return false; }
      if parts.profiles && bak.profiles.Some? {
        profiles := map[];
        if failAt == 2 { return false; }
        profiles := bak.profiles.value;
      }
      if failAt == 3 { return false; }
      if parts.profiles && bakGroups.Some? {
        groups := {};
        if failAt == 4 { return false; }
        groups := bakGroups.value;
      }
      if failAt == 5 { return false; }
      if parts.profiles || parts.routes {
        var m := MaxId(profiles.Keys);
        profileLastId := Max(profileLastId, m);
        if bak.counters.Some? {
          var c := MaxId(bak.counters.value);
          profileLastId := Max(profileLastId, c);
        }
      }
      return failAt != 6;
    }

    /** One INSERT of a chunk of rows: all of them, or none if a row repeats an id or has no group. */
    method InsertChunk(rows: seq<InsertRow>)
      modifies this`profiles
      ensures profiles == if Fits(rows, old(profiles), groups) then old(profiles) + Inserted(rows) else old(profiles)
    {
      var added: map<int, Row> := map[];
      for i := 0 to |rows|
        invariant Distinct(rows[..i]) && IdsOf(rows[..i]) !! profiles.Keys
        invariant forall j :: 0 <= j < i ==> rows[j].row.gid in groups
        invariant added == Inserted(rows[..i]) && profiles == old(profiles)
      {
        var r := rows[i];
        ghost var front := rows[..i + 1];
        assert front[..i] == rows[..i] && front[i] == r;
        IdsOfStep(front);
        if r.id in added || r.id in profiles || r.row.gid !in groups {
          if r.row.gid in groups { Refused(rows, i, profiles); }
          return;
        }
        assert Distinct(front) by { DistinctStep(front); }
        added := added[r.id := r.row];
      }
      assert rows[..|rows|] == rows;
      profiles := profiles + added;
    }

    /** The same in chunks. */
    method ExecBatchInsertProfiles(rows: seq<InsertRow>)
      modifies this`profiles
      ensures profiles == Taken(old(profiles), rows, groups)
    {
      var off := 0;
      ghost var was := profiles;
      while off < |rows|
        invariant 0 <= off <= |rows|
        invariant Taken(was, rows, groups) == Taken(profiles, rows[off..], groups)
      {
        var end := if off + INSERT_CHUNK < |rows| then off + INSERT_CHUNK else |rows|;
        TakenNext(profiles, rows, off, end, groups);
        hide *;
        InsertChunk(rows[off..end]);
        off := end;
      }
    }
  }

  /** The counter is not behind the old one, 0, the ids of the table or the counters of a backup, and is one
      of them. */
  ghost predicate LeastAhead(counter: int, before: int, ids: set<int>, counters: Option<set<int>>) {
    var at := {before, 0} + ids + (if counters.Some? then counters.value else {});
    counter in at && (before <= counter) && (forall id :: id in ids ==> id <= counter)
    && (counters.Some? ==> forall id :: id in counters.value ==> id <= counter)
  }

  lemma RestoredCounter(s: Store, bak: Backup, parts: Parts)
    requires parts.profiles || parts.routes
    ensures var r := Restored(s, bak, parts); LeastAhead(r.lastId, s.lastId, r.rows.Keys, bak.counters)
  {}

  /** The table takes all the rows. */
  ghost predicate Fits(rows: seq<InsertRow>, profiles: map<int, Row>, groups: set<int>) {
    Distinct(rows) && IdsOf(rows) !! profiles.Keys && forall i :: 0 <= i < |rows| ==> rows[i].row.gid in groups
  }

  /** The table after inserting rows chunk by chunk, each of them as a whole or not at all. */
  ghost function Taken(was: map<int, Row>, rows: seq<InsertRow>, groups: set<int>): map<int, Row>
    decreases |rows|
  {
    if rows == [] then was
    else
      var n := if INSERT_CHUNK < |rows| then INSERT_CHUNK else |rows|;
      Taken(if Fits(rows[..n], was, groups) then was + Inserted(rows[..n]) else was, rows[n..], groups)
  }

  lemma TakenUnfold(was: map<int, Row>, rows: seq<InsertRow>, groups: set<int>, n: nat)
    requires rows != [] && n == if INSERT_CHUNK < |rows| then INSERT_CHUNK else |rows|
    ensures Taken(was, rows, groups)
      == Taken(if Fits(rows[..n], was, groups) then was + Inserted(rows[..n]) else was, rows[n..], groups)
  {
    hide Fits, Inserted, IdsOf;
  }

  lemma TakenNext(was: map<int, Row>, rows: seq<InsertRow>, off: nat, end: nat, groups: set<int>)
    requires off < |rows| && end == if off + INSERT_CHUNK < |rows| then off + INSERT_CHUNK else |rows|
    ensures Taken(was, rows[off..], groups)
      == Taken(if Fits(rows[off..end], was, groups) then was + Inserted(rows[off..end]) else was, rows[end..], groups)
  {
    hide Fits, Inserted, IdsOf;
    var tail, n := rows[off..], end - off;
    assert |tail| == |rows| - off;
    TakenUnfold(was, tail, groups, n);
    assert tail[..n] == rows[off..end] && tail[n..] == rows[end..];
    hide Taken;
  }

  /** Rows that fit are all taken. */
  lemma {:induction false} TakenAll(was: map<int, Row>, rows: seq<InsertRow>, groups: set<int>)
    requires Fits(rows, was, groups)
    ensures Taken(was, rows, groups) == was + Inserted(rows)
    decreases |rows|
  {
    if rows != [] {
      var n := if INSERT_CHUNK < |rows| then INSERT_CHUNK else |rows|;
      assert rows[..n] + rows[n..] == rows && rows[0..n] == rows[..n] && rows[n..|rows|] == rows[n..];
      assert was + Inserted(rows[..0]) == was;
      ChunkFits(rows, 0, n, was, groups);
      ChunkFits(rows, n, |rows|, was, groups);
      InsertedConcat(rows[..n], rows[n..]);
      AddAfter(was, Inserted(rows[..n]), Inserted(rows[n..]));
      hide Fits, Inserted;
      TakenAll(was + Inserted(rows[..n]), rows[n..], groups);
    }
  }

  /** Every row of the table was there before or is one of the rows, and no old row changes. */
  lemma {:induction false} TakenRow(was: map<int, Row>, rows: seq<InsertRow>, groups: set<int>, id: int) returns (k: nat)
    requires id in Taken(was, rows, groups)
    ensures if id in was then Taken(was, rows, groups)[id] == was[id]
            else k < |rows| && rows[k] == InsertRow(id, Taken(was, rows, groups)[id])
    decreases |rows|
  {
    k := 0;
    if rows != [] {
      var n := if INSERT_CHUNK < |rows| then INSERT_CHUNK else |rows|;
      var next := if Fits(rows[..n], was, groups) then was + Inserted(rows[..n]) else was;
      k := TakenRow(next, rows[n..], groups, id);
      if id !in was {
        if id in next { k := InsertedFrom(rows[..n], id); } else { k := k + n; }
      }
    }
  }

  lemma {:induction false} TakenKeeps(was: map<int, Row>, rows: seq<InsertRow>, groups: set<int>)
    ensures was.Keys <= Taken(was, rows, groups).Keys
    decreases |rows|
  {
    if rows != [] {
      var n := if INSERT_CHUNK < |rows| then INSERT_CHUNK else |rows|;
      TakenKeeps(if Fits(rows[..n], was, groups) then was + Inserted(rows[..n]) else was, rows[n..], groups);
    }
  }

  lemma {:induction false} InsertedFrom(rows: seq<InsertRow>, id: int) returns (k: nat)
    requires id in Inserted(rows)
    ensures k < |rows| && rows[k] == InsertRow(id, Inserted(rows)[id])
  {
    var n := |rows| - 1;
    if rows[n].id == id { k := n; } else { k := InsertedFrom(rows[..n], id); }
  }

  lemma AddAfter<K, V>(a: map<K, V>, b: map<K, V>, c: map<K, V>)
    ensures (a + b) + c == a + (b + c)
  {}

  lemma ChunkFits(rows: seq<InsertRow>, i: nat, j: nat, profiles: map<int, Row>, groups: set<int>)
    requires i <= j <= |rows| && Fits(rows, profiles, groups)
    ensures Fits(rows[i..j], profiles + Inserted(rows[..i]), groups)
  {
    DistinctSlices(rows, i, j);
    IdsOfConcat(rows[..i], rows[i..j]);
    IdsOfConcat(rows[..j], rows[j..]);
    assert rows[..i] + rows[i..j] == rows[..j] && rows[..j] + rows[j..] == rows;
    hide IdsOf;
  }

  lemma Refused(rows: seq<InsertRow>, i: nat, profiles: map<int, Row>)
    requires i < |rows| && (rows[i].id in IdsOf(rows[..i]) || rows[i].id in profiles)
    ensures !Distinct(rows) || !(IdsOf(rows) !! profiles.Keys)
  {
    if rows[i].id in IdsOf(rows[..i]) {
      var j :| 0 <= j < i && rows[..i][j].id == rows[i].id;
      assert rows[j].id == rows[i].id;
    } else {
      assert rows[i].id in IdsOf(rows);
    }
  }

  lemma DistinctStep(rows: seq<InsertRow>)
    requires rows != [] && Distinct(rows[..|rows| - 1]) && rows[|rows| - 1].id !in IdsOf(rows[..|rows| - 1])
    ensures Distinct(rows)
  {
    var n := |rows| - 1;
    forall i, j | 0 <= i < j < |rows| ensures rows[i].id != rows[j].id {
      assert rows[..n][i].id in IdsOf(rows[..n]);
      if j < n { assert rows[..n][i].id != rows[..n][j].id; }
    }
  }

  lemma IdsOfConcat(a: seq<InsertRow>, b: seq<InsertRow>)
    ensures IdsOf(a + b) == IdsOf(a) + IdsOf(b)
  {
    forall id | id in IdsOf(a + b) ensures id in IdsOf(a) + IdsOf(b) {
      var i :| 0 <= i < |a + b| && (a + b)[i].id == id;
      assert if i < |a| then a[i].id == id else b[i - |a|].id == id;
    }
    forall id | id in IdsOf(a) ensures id in IdsOf(a + b) {
      var i :| 0 <= i < |a| && a[i].id == id;
      assert (a + b)[i].id == id;
    }
    forall id | id in IdsOf(b) ensures id in IdsOf(a + b) {
      var i :| 0 <= i < |b| && b[i].id == id;
      assert (a + b)[|a| + i].id == id;
    }
  }

  lemma PutAfter<K, V>(a: map<K, V>, b: map<K, V>, k: K, v: V)
    ensures (a + b)[k := v] == a + b[k := v]
  {}

  lemma {:induction false} InsertedConcat(a: seq<InsertRow>, b: seq<InsertRow>)
    ensures Inserted(a + b) == Inserted(a) + Inserted(b)
  {
    hide IdsOf;
    if b == [] {
      assert a + b == a;
    } else {
      var n, all := |b| - 1, a + b;
      InsertedConcat(a, b[..n]);
      assert all[..|all| - 1] == a + b[..n];
      assert all[|all| - 1] == b[n];
      PutAfter(Inserted(a), Inserted(b[..n]), b[n].id, b[n].row);
    }
  }

  lemma DistinctSlices(rows: seq<InsertRow>, i: nat, j: nat)
    requires i <= j <= |rows| && Distinct(rows)
    ensures Distinct(rows[i..j]) && IdsOf(rows[..i]) !! IdsOf(rows[i..j])
  {
    forall id | id in IdsOf(rows[..i]) ensures id !in IdsOf(rows[i..j]) {
      var a :| 0 <= a < i && rows[..i][a].id == id;
      forall b | 0 <= b < j - i ensures rows[i..j][b].id != id {
        assert rows[i + b].id != rows[a].id;
      }
    }
  }

  ghost predicate Distinct(rows: seq<InsertRow>) {
    forall i, j :: 0 <= i < j < |rows| ==> rows[i].id != rows[j].id
  }

  // ----- steps of a batch request

  lemma AssembleGot(s: Store, ids: set<int>, byId: map<int, Profile>, s': Store)
    requires FindsIds(s, ids, byId) && LoadsApart(s, byId)
    requires s'.rows == s.rows && s'.lastId == s.lastId && s'.cache == Rebound(s, ids, byId)
    requires s'.known == s.known + byId.Values && s'.held.Keys == s.held.Keys + byId.Values
    requires forall p :: p in s.held ==> s'.held[p] == s.held[p]
    requires forall id :: id in byId && Live(s, id) ==> byId[id] == s.cache[id]
    requires forall id :: id in byId && !Live(s, id) ==>
      id in s.rows && byId[id] !in s.known && byId[id] in s'.held && s'.held[byId[id]] == Content(id, s.rows[id])
    ensures Got(s, ids, byId, s')
  {}

  lemma NothingExpired(s: Store, ids: set<int>, byId: map<int, Profile>)
    requires Expired(s, ids) == {}
    requires forall id :: id in byId <==> id in ids && Live(s, id)
    requires forall id :: id in byId ==> byId[id] == s.cache[id]
    ensures s.cache - Expired(s, ids) == Rebound(s, ids, byId)
    ensures FindsIds(s, ids, byId) && LoadsApart(s, byId)
  {
    forall id | id in ids ensures Live(s, id) {
      assert id !in Expired(s, ids);
    }
    var next := Rebound(s, ids, byId);
    forall k ensures k in s.cache - Expired(s, ids) <==> k in next
             ensures k in next ==> (s.cache - Expired(s, ids))[k] == next[k]
    {}
  }

  lemma NoValues<K, V>(m: map<K, V>)
    requires m.Keys == {}
    ensures m.Values == {}
  {
    if v :| v in m.Values {
      var k := KeyOf(m, v);
      assert false;
    }
  }

  lemma DeletedKeeps(s: Store, ids: set<int>)
    ensures var d := Deleted(s, ids); d.lastId == s.lastId && d.held == s.held && d.known == s.known
  {}

  /** The two maps agree at the key. */
  predicate SameAt<V(==)>(k: int, a: map<int, V>, b: map<int, V>) {
    (k in a <==> k in b) && (k in a ==> a[k] == b[k])
  }

  lemma GotNothing(s: Store, id: int, s': Store)
    requires !Live(s, id) && id !in s.rows && s' == s.(cache := s.cache - {id})
    ensures Got(s, {id}, map[], s')
  {
    var byId: map<int, Profile> := map[];
    assert Expired(s, {id}) == {id};
    NoValues(byId);
    assert s.known + byId.Values == s.known && s.held.Keys + byId.Values == s.held.Keys;
    var next := Rebound(s, {id}, byId);
    forall k ensures k in s'.cache <==> k in next
             ensures k in s'.cache ==> s'.cache[k] == next[k]
    {}
  }

  class ProfilesRepo {
    const db: Database
    var identityMap: map<int, Profile>
    var held: set<Profile>
    ghost var known: set<Profile>

    ghost function State(): Store
      reads this, db, held
    {
      Store(db.profiles, db.profileLastId, identityMap, known,
            map p | p in held :: Content(p.id, Row(p.gid, p.data)))
    }

    constructor (db: Database)
      ensures this.db == db && held == {} && identityMap == map[] && known == {}
    {
      this.db := db;
      identityMap, held, known := map[], {}, {};
    }

    /** GetProfile: the live object of the identity map, or one loaded from its row. */
    method GetProfile(id: int) returns (profile: Profile?)
      requires Wf(State())
      modifies this`identityMap, this`held, this`known
      ensures Got(old(State()), {id}, if profile == null then map[] else map[id := profile], State())
      ensures identityMap == if profile == null then old(identityMap) - {id} else old(identityMap)[id := profile]
    {
      hide Got, Wf;
      ghost var s := State();
      if id in identityMap {
        if identityMap[id] in held {
          GotLive(s, id, State());
          return identityMap[id];
        }
        identityMap := identityMap - {id};
      }
      profile := LoadFromDatabase(id);
      if profile == null {
        assert State() == s.(cache := s.cache - {id});
        GotNothing(s, id, State());
        return;
      }
      identityMap := identityMap[id := profile];
      held, known := held + {profile}, known + {profile};
      assert State() == Loaded(s, id, profile) by {
        assert State().cache == s.cache[id := profile];
      }
      LoadedIsGot(s, id, profile);
    }

    method LoadFromDatabase(id: int) returns (profile: Profile?)
      ensures profile == null <==> id !in db.profiles
      ensures profile != null ==> fresh(profile) && profile.id == id && Row(profile.gid, profile.data) == db.profiles[id]
    {
      if id !in db.profiles { return null; }
      var row := db.profiles[id];
      profile := new Profile(id, row.gid, row.data);
    }

    /** SELECT ... WHERE id IN (...): an object for each id of the chunk that has a row. */
    method LoadProfilesByIdsChunk(chunk: seq<int>) returns (result: map<int, Profile>)
      ensures forall id :: id in result <==> id in SetOf(chunk) && id in db.profiles
      ensures forall id :: id in result ==> LoadedFrom(db.profiles, id, result[id]) && fresh(result[id])
      ensures forall a, b :: a in result && b in result && a != b ==> result[a] != result[b]
    {
      result := map[];
      var todo := SetOf(chunk) * db.profiles.Keys;
      while todo != {}
        invariant todo <= SetOf(chunk) * db.profiles.Keys
        invariant result.Keys == SetOf(chunk) * db.profiles.Keys - todo
        invariant forall id :: id in result ==> LoadedFrom(db.profiles, id, result[id]) && fresh(result[id])
        invariant forall a, b :: a in result && b in result && a != b ==> result[a] != result[b]
        decreases |todo|
      {
        var id := AnyOf(todo);
        var row := db.profiles[id];
        var profile := new Profile(id, row.gid, row.data);
        result := result[id := profile];
        todo := todo - {id};
      }
    }

    /** GetProfileBatch. An object that another thread drops while the loop runs is as good as dropped
        before the call if its entry has not been locked yet, and is held by byId if it has. */
    method GetProfileBatch(ids: seq<int>) returns (profiles: seq<Profile>, ghost byId: map<int, Profile>)
      requires Wf(State())
      modifies this`identityMap, this`held, this`known
      ensures Got(old(State()), SetOf(ids), byId, State())
      ensures profiles == Found(ids, byId)
    {
      ghost var s := State();
      hide Got, Live, Expired, LoadsApart, FindsIds;
      var objects, missing := LookUp(ids);
      if missing != [] {
        objects := LoadMissing(s, ids, missing, objects);
        identityMap := identityMap + objects;
      } else {
        NothingExpired(s, SetOf(ids), objects);
      }
      profiles := InOrder(ids, objects);
      byId := objects;
      assert identityMap == Rebound(s, SetOf(ids), byId);
      Keep(objects);
      AssembleGot(s, SetOf(ids), byId, State());
    }

    /** The caller holds what it was given. */
    method Keep(objects: map<int, Profile>)
      modifies this`held, this`known
      ensures var s, s' := old(State()), State();
        && s'.rows == s.rows && s'.lastId == s.lastId && s'.cache == s.cache
        && s'.known == s.known + objects.Values && s'.held.Keys == s.held.Keys + objects.Values
        && (forall p :: p in s.held ==> s'.held[p] == s.held[p])
        && forall id :: id in objects ==>
          objects[id] in s'.held && s'.held[objects[id]] == Content(objects[id].id, Row(objects[id].gid, objects[id].data))
    {
      held, known := held + objects.Values, known + objects.Values;
      forall id | id in objects ensures objects[id] in held { InValues(objects, id); }
    }

    /** The live objects of the identity map, and the ids that it does not answer; dead entries go. */
    method LookUp(ids: seq<int>) returns (objects: map<int, Profile>, missing: seq<int>)
      requires Wf(State())
      modifies this`identityMap
      ensures var s := old(State());
        && identityMap == s.cache - Expired(s, SetOf(ids))
        && SetOf(missing) == Expired(s, SetOf(ids))
        && (forall id :: id in objects <==> id in SetOf(ids) && Live(s, id))
        && forall id :: id in objects ==> objects[id] == s.cache[id]
    {
      ghost var s := State();
      objects, missing := map[], [];
      for i := 0 to |ids|
        invariant identityMap == s.cache - Expired(s, SetOf(ids[..i]))
        invariant SetOf(missing) == Expired(s, SetOf(ids[..i]))
        invariant forall id :: id in objects <==> id in SetOf(ids[..i]) && Live(s, id)
        invariant forall id :: id in objects ==> objects[id] == s.cache[id]
        invariant held == old(held) && known == old(known)
      {
        var id := ids[i];
        SetOfAppend(ids[..i], id);
        SetOfAppend(missing, id);
        assert ids[..i + 1] == ids[..i] + [id];
        if id in identityMap && identityMap[id] in held {
          objects := objects[id := identityMap[id]];
        } else {
          identityMap := identityMap - {id};
          missing := missing + [id];
        }
      }
      assert ids[..|ids|] == ids;
    }

    /** The objects of an answer in the order of the ids asked for. */
    method InOrder(ids: seq<int>, objects: map<int, Profile>) returns (profiles: seq<Profile>)
      ensures profiles == Found(ids, objects)
    {
      profiles := [];
      for i := 0 to |ids|
        invariant profiles == Found(ids[..i], objects)
      {
        FoundAppend(ids[..i], ids[i], objects);
        assert ids[..i + 1] == ids[..i] + [ids[i]];
        if ids[i] in objects { profiles := profiles + [objects[ids[i]]]; }
      }
      assert ids[..|ids|] == ids;
    }

    /** The chunks of the ids that the identity map does not answer. */
    method LoadMissing(ghost s: Store, ghost ids: seq<int>, missing: seq<int>, live: map<int, Profile>) returns (byId: map<int, Profile>)
      requires s.rows == db.profiles && SetOf(missing) == Expired(s, SetOf(ids))
      requires forall id :: id in live <==> id in SetOf(ids) && Live(s, id)
      requires forall id :: id in live ==> live[id] == s.cache[id]
      ensures FindsIds(s, SetOf(ids), byId) && LoadsApart(s, byId)
      ensures forall id :: id in byId && Live(s, id) ==> byId[id] == s.cache[id]
      ensures forall id :: id in byId && !Live(s, id) ==> LoadedFrom(s.rows, id, byId[id]) && fresh(byId[id])
    {
      byId := live;
      var off := 0;
      while off < |missing|
        invariant 0 <= off <= |missing|
        invariant forall id :: id in byId <==> id in live || (id in SetOf(missing[..off]) && id in s.rows)
        invariant forall id :: id in live ==> byId[id] == live[id]
        invariant forall id :: id in byId && id !in live ==> LoadedFrom(s.rows, id, byId[id]) && fresh(byId[id])
        invariant forall a, b :: a in byId && b in byId && a != b && a !in live ==> byId[a] != byId[b]
      {
        var end := if off + BATCH_LIMIT_READ < |missing| then off + BATCH_LIMIT_READ else |missing|;
        var loaded := LoadProfilesByIdsChunk(missing[off..end]);
        SetOfSlices(missing, off, end);
        SetOfSlices(missing, end, |missing|);
        assert missing[..|missing|] == missing;
        byId := byId + loaded;
        off := end;
      }
      assert missing[..off] == missing;
    }

    /** UPDATE ... RETURNING profile_last_id. */
    method NewProfileID() returns (id: int)
      modifies db`profileLastId
      ensures id == old(State()).lastId + 1
      ensures State() == old(State()).(lastId := id)
    {
      db.profileLastId := db.profileLastId + 1;
      id := db.profileLastId;
    }

    method NewProfileIDRange(n: int) returns (firstId: int)
      modifies db`profileLastId
      ensures n <= 0 ==> firstId == 0 && State() == old(State())
      ensures n > 0 ==> firstId == old(State()).lastId + 1 && State() == Reserved(old(State()), n)
    {
      if n <= 0 { return 0; }
      db.profileLastId := db.profileLastId + n;
      firstId := db.profileLastId - n + 1;
    }

    /** saveToDatabase: an UPDATE or an INSERT, which the foreign key refuses without the group. */
    method SaveToDatabase(profile: Profile, id: int)
      requires profile in held
      modifies db`profiles
      ensures var s := old(State());
        State() == s.(rows := if profile.gid in db.groups then s.rows[id := s.held[profile].row] else s.rows)
    {
      if profile.gid in db.groups {
        db.profiles := db.profiles[id := Row(profile.gid, profile.data)];
      }
    }

    method Save(profile: Profile) returns (ok: bool)
      requires profile in held
      modifies this`identityMap, db`profiles
      ensures ok <==> profile.id >= 0
      ensures State() == if ok then Saved(old(State()), profile, profile.gid in db.groups) else old(State())
      ensures ok ==> identityMap == old(identityMap)[profile.id := profile]
      ensures ok && profile.gid in db.groups ==> db.profiles == old(db.profiles)[profile.id := Row(profile.gid, profile.data)]
      ensures profile.gid !in db.groups ==> db.profiles == old(db.profiles)
    {
      if profile.id < 0 { return false; }
      SaveToDatabase(profile, profile.id);
      identityMap := identityMap[profile.id := profile];
      ok := true;
    }

    /** What AddProfile and AddProfileBatch do with an object and its new id. */
    method BindOne(profile: Profile, id: int, gid: int)
      requires profile in held
      modifies this`identityMap, profile`id, profile`gid
      ensures State() == Bound(old(State()), profile, id, gid, false)
      ensures profile.gid == gid
    {
      profile.id := id;
      profile.gid := gid;
      identityMap := identityMap[id := profile];
    }

    /** AddProfile: takes an id, then binds and stores the object under it. */
    method AddProfile(profile: Profile, gid: int, currentGroup: int) returns (ok: bool)
      requires profile in held
      modifies this`identityMap, db`profiles, db`profileLastId, profile`id, profile`gid
      ensures old(profile.id) >= 0 ==> !ok && State() == old(State())
      ensures old(profile.id) < 0 ==>
        && (ok <==> (if gid < 0 then currentGroup else gid) in db.groups)
        && State() == Bound(old(State()).(lastId := old(State()).lastId + 1), profile, old(State()).lastId + 1,
                            if gid < 0 then currentGroup else gid, ok)
      ensures old(profile.id) < 0 ==>
        && profile.id == db.profileLastId == old(db.profileLastId) + 1 && profile.gid == (if gid < 0 then currentGroup else gid)
        && identityMap == old(identityMap)[profile.id := profile]
        && db.profiles == if ok then old(db.profiles)[profile.id := Row(profile.gid, profile.data)] else old(db.profiles)
    {
      ghost var s := State();
      if profile.id >= 0 { return false; }
      var g := if gid < 0 then currentGroup else gid;
      var newId := NewProfileID();
      BindOne(profile, newId, g);
      SaveToDatabase(profile, newId);
      ok := g in db.groups;
      BoundInTwo(s.(lastId := newId), profile, newId, g, ok);
    }

    /** AddProfileBatch: takes a block of ids for the profiles that have none, binds them and stores their
        rows in chunks. An object that is listed twice keeps its last id, and one chunk is refused. */
    method AddProfileBatch(profiles: seq<Profile>, gid: int, currentGroup: int) returns (ok: bool)
      requires AllHeld(profiles, held)
      modifies this`identityMap, db`profiles, db`profileLastId, held
      ensures var s, g := old(State()), if gid < 0 then currentGroup else gid;
        var toAdd := New(profiles, s.held);
        && (ok <==> g in db.groups)
        && (!ok ==> State() == s)
        && (ok ==> State() == BatchResult(s, toAdd, g, db.groups))
    {
      var g := if gid < 0 then currentGroup else gid;
      if g !in db.groups { return false; }
      ghost var s := State();
      var toAdd := FilterNew(profiles);
      if toAdd == [] {
        NothingAdded(s, g, db.groups);
        return true;
      }
      AddAll(toAdd, g);
      ok := true;
    }

    method AddAll(toAdd: seq<Profile>, gid: int)
      requires toAdd != [] && AllHeld(toAdd, held)
      modifies this`identityMap, db`profiles, db`profileLastId, held
      ensures State() == BatchResult(old(State()), toAdd, gid, db.groups)
    {
      hide *;
      BatchInTwo(State(), toAdd, gid, db.groups);
      BindNew(toAdd, gid);
      StoreAll(toAdd);
    }

    method BindNew(toAdd: seq<Profile>, gid: int)
      requires toAdd != [] && AllHeld(toAdd, held)
      modifies this`identityMap, db`profileLastId, held
      ensures held == old(held) && State() == BatchBound(old(State()), toAdd, gid)
    {
      var firstId := NewProfileIDRange(|toAdd|);
      BindAll(toAdd, firstId, gid);
    }

    method StoreAll(toAdd: seq<Profile>)
      requires AllHeld(toAdd, held)
      modifies db`profiles
      ensures State() == BatchTaken(old(State()), toAdd, db.groups)
    {
      var rows := CollectRows(toAdd);
      StoreRows(rows);
    }

    method StoreRows(rows: seq<InsertRow>)
      modifies db`profiles
      ensures var s := old(State()); State() == WithRows(s, Taken(s.rows, rows, db.groups))
    {
      db.ExecBatchInsertProfiles(rows);
    }

    method CollectRows(toAdd: seq<Profile>) returns (rows: seq<InsertRow>)
      requires AllHeld(toAdd, held)
      ensures rows == RowsOf(State().held, toAdd)
    {
      rows := [];
      for i := 0 to |toAdd|
        invariant |rows| == i
        invariant forall k :: 0 <= k < i ==> rows[k] == InsertRow(toAdd[k].id, Row(toAdd[k].gid, toAdd[k].data))
      {
        rows := rows + [InsertRow(toAdd[i].id, Row(toAdd[i].gid, toAdd[i].data))];
      }
    }

    method FilterNew(profiles: seq<Profile>) returns (toAdd: seq<Profile>)
      requires AllHeld(profiles, held)
      ensures toAdd == New(profiles, State().held)
    {
      toAdd := [];
      for i := 0 to |profiles|
        invariant toAdd == New(profiles[..i], State().held)
      {
        assert profiles[..i + 1][..i] == profiles[..i];
        if profiles[i].id < 0 { toAdd := toAdd + [profiles[i]]; }
      }
      assert profiles[..|profiles|] == profiles;
    }

    /** The loop that gives out the ids of a block. */
    method BindAll(toAdd: seq<Profile>, firstId: int, gid: int)
      requires AllHeld(toAdd, held)
      modifies this`identityMap, held
      ensures held == old(held)
      ensures State() == BoundAll(old(State()), toAdd, firstId, gid, {})
    {
      ghost var s := State();
      BoundToEnds(s, toAdd, firstId, gid);
      hide BoundTo, State, BoundAll, Bound;
      for i := 0 to |toAdd|
        invariant held == old(held)
        invariant State() == BoundTo(s, toAdd, i, firstId, gid)
      {
        BoundToNext(s, toAdd, i, firstId, gid);
        BindOne(toAdd[i], firstId + i, gid);
      }
    }

    /** BatchDeleteProfiles: keeps the running profile unless it is stopped first, and gives up if a
        profile's group is missing. */
    method BatchDeleteProfiles(ids: seq<int>, startedId: int, stopRunning: bool)
        returns (ok: bool, left: seq<int>, ghost byId: map<int, Profile>, ghost mid: Store)
      requires Wf(State())
      modifies this`identityMap, this`held, this`known, db`profiles
      ensures SetOf(left) == SetOf(ids) - (if stopRunning then {} else {startedId})
      ensures Got(old(State()), SetOf(left), byId, mid)
      ensures ok <==> GroupsPresent(mid, byId, db.groups)
      ensures State() == if ok then Deleted(mid, SetOf(left)) else mid
      ensures ok ==> forall id :: id in SetOf(left) ==> id !in db.profiles && id !in identityMap
      ensures ok ==> forall id :: id !in SetOf(left) ==> SameAt(id, db.profiles, mid.rows) && SameAt(id, identityMap, mid.cache)
      ensures db.profileLastId == mid.lastId && held == mid.held.Keys && known == mid.known
    {
      hide *;
      left := ids;
      if !stopRunning { left := RemoveAll(ids, startedId); }
      var profiles;
      profiles, byId := GetProfileBatch(left);
      mid := State();
      GotBounds(old(State()), SetOf(left), byId, mid);
      StateIs();
      ok := HaveGroups(profiles, left, byId);
      if ok { Forget(left); }
      StateIs();
      DeletedKeeps(mid, SetOf(left));
    }

    lemma StateIs()
      ensures var s := State();
        s.held.Keys == held && s.rows == db.profiles && s.cache == identityMap && s.lastId == db.profileLastId && s.known == known
    {}

    /** The entries and the rows of the ids go. */
    method Forget(ids: seq<int>)
      modifies this`identityMap, db`profiles
      ensures State() == Deleted(old(State()), SetOf(ids))
      ensures forall id :: id in SetOf(ids) ==> id !in db.profiles && id !in identityMap
      ensures forall id :: id !in SetOf(ids) ==> SameAt(id, db.profiles, old(db.profiles)) && SameAt(id, identityMap, old(identityMap))
    {
      identityMap := identityMap - SetOf(ids);
      db.profiles := db.profiles - SetOf(ids);
    }

    method HaveGroups(profiles: seq<Profile>, ghost ids: seq<int>, ghost byId: map<int, Profile>) returns (ok: bool)
      requires profiles == Found(ids, byId) && byId.Values <= held
      requires forall id :: id in byId ==> id in SetOf(ids)
      ensures ok <==> GroupsPresent(State(), byId, db.groups)
    {
      for i := 0 to |profiles|
        invariant forall j :: 0 <= j < i ==> profiles[j].gid in db.groups
      {
        if profiles[i].gid !in db.groups {
          ghost var id := FoundFrom(ids, byId, i);
          return false;
        }
      }
      forall id | id in byId ensures byId[id] in held && byId[id].gid in db.groups {
        InValues(byId, id);
        var i := FoundAt(ids, byId, id);
      }
      return true;
    }

    method RemoveAll(ids: seq<int>, id: int) returns (left: seq<int>)
      ensures SetOf(left) == SetOf(ids) - {id}
    {
      left := [];
      for i := 0 to |ids|
        invariant SetOf(left) == SetOf(ids[..i]) - {id}
      {
        assert ids[..i + 1] == ids[..i] + [ids[i]];
        SetOfAppend(ids[..i], ids[i]);
        SetOfAppend(left, ids[i]);
        if ids[i] != id { left := left + [ids[i]]; }
      }
      assert ids[..|ids|] == ids;
    }
  }

  /** The list of the objects found has an object exactly if some id asked for does. */
  lemma {:induction false} FoundFrom(ids: seq<int>, byId: map<int, Profile>, i: nat) returns (id: int)
    requires i < |Found(ids, byId)|
    ensures id in byId && Found(ids, byId)[i] == byId[id]
  {
    var n := if ids[0] in byId then 1 else 0;
    if i < n { id := ids[0]; } else { id := FoundFrom(ids[1..], byId, i - n); }
  }

  lemma {:induction false} FoundAt(ids: seq<int>, byId: map<int, Profile>, id: int) returns (i: nat)
    requires id in SetOf(ids) && id in byId
    ensures i < |Found(ids, byId)| && Found(ids, byId)[i] == byId[id]
  {
    if ids[0] == id {
      i := 0;
    } else {
      var k :| 0 <= k < |ids| && ids[k] == id;
      assert ids[1..][k - 1] == id;
      i := FoundAt(ids[1..], byId, id);
      i := i + if ids[0] in byId then 1 else 0;
    }
  }

  ghost predicate GroupsPresent(s: Store, byId: map<int, Profile>, groups: set<int>) {
    forall id :: id in byId ==> byId[id] in s.held && s.held[byId[id]].row.gid in groups
  }

  ghost predicate AllHeld(ps: seq<Profile>, held: set<Profile>) {
    forall i :: 0 <= i < |ps| ==> ps[i] in held
  }

  /** The rows that are collected from the held objects of a list. */
  ghost function RowsOf(held: map<Profile, Content>, ps: seq<Profile>): (rows: seq<InsertRow>)
    ensures AllHeld(ps, held.Keys) ==>
      |rows| == |ps| && forall i :: 0 <= i < |ps| ==> rows[i] == InsertRow(held[ps[i]].id, held[ps[i]].row)
  {
    if ps == [] || ps[|ps| - 1] !in held then []
    else
      var n := |ps| - 1;
      RowsOf(held, ps[..n]) + [InsertRow(held[ps[n]].id, held[ps[n]].row)]
  }

  /** An object ends with the id of its last place in the list. */
  lemma {:induction false} BoundIds(s: Store, ps: seq<Profile>, first: int, gid: int, stored: set<int>, k: nat)
    requires k < |ps| && AllHeld(ps, s.held.Keys)
    ensures var c := BoundAll(s, ps, first, gid, stored).held[ps[k]];
      && first + k <= c.id < first + |ps| && ps[c.id - first] == ps[k]
      && c.row == Row(gid, s.held[ps[k]].row.data)
  {
    var n := |ps| - 1;
    if ps[k] == ps[n] {
      BoundData(s, ps[..n], first, gid, stored, ps[k]);
    } else {
      BoundIds(s, ps[..n], first, gid, stored, k);
    }
  }

  lemma {:induction false} BoundData(s: Store, ps: seq<Profile>, first: int, gid: int, stored: set<int>, p: Profile)
    requires AllHeld(ps, s.held.Keys) && p in s.held
    ensures BoundAll(s, ps, first, gid, stored).held[p].row.data == s.held[p].row.data
    ensures p !in ps ==> BoundAll(s, ps, first, gid, stored).held[p] == s.held[p]
  {
    if ps != [] {
      BoundData(s, ps[..|ps| - 1], first, gid, stored, p);
    }
  }

  /** The identity map has an entry for every id of the block, in the order of the list. */
  lemma {:induction false} BoundCache(s: Store, ps: seq<Profile>, first: int, gid: int, stored: set<int>, id: int)
    requires AllHeld(ps, s.held.Keys)
    ensures var b := BoundAll(s, ps, first, gid, stored);
      if first <= id < first + |ps| then id in b.cache && b.cache[id] == ps[id - first]
      else (id in b.cache <==> id in s.cache) && (id in s.cache ==> b.cache[id] == s.cache[id])
  {
    if ps != [] { BoundCache(s, ps[..|ps| - 1], first, gid, stored, id); }
  }

  /** The table has a row for every stored id of the block, with the contents of its object. */
  lemma {:induction false} BoundRow(s: Store, ps: seq<Profile>, first: int, gid: int, stored: set<int>, id: int)
    requires AllHeld(ps, s.held.Keys)
    ensures var b := BoundAll(s, ps, first, gid, stored);
      if first <= id < first + |ps| && id in stored then
        id in b.rows && b.rows[id] == Row(gid, s.held[ps[id - first]].row.data)
      else (id in b.rows <==> id in s.rows) && (id in s.rows ==> b.rows[id] == s.rows[id])
  {
    if ps != [] {
      var n := |ps| - 1;
      BoundRow(s, ps[..n], first, gid, stored, id);
      BoundData(s, ps[..n], first, gid, stored, ps[n]);
    }
  }

  /** Which rows are stored makes no difference elsewhere. */
  lemma {:induction false} BoundStored(s: Store, ps: seq<Profile>, first: int, gid: int, a: set<int>, b: set<int>)
    ensures BoundAll(s, ps, first, gid, a).(rows := s.rows) == BoundAll(s, ps, first, gid, b).(rows := s.rows)
  {
    if ps != [] { BoundStored(s, ps[..|ps| - 1], first, gid, a, b); }
  }

  function BoundTo(s: Store, ps: seq<Profile>, i: nat, first: int, gid: int): Store
    requires i <= |ps|
  {
    BoundAll(s, ps[..i], first, gid, {})
  }

  lemma BoundToEnds(s: Store, ps: seq<Profile>, first: int, gid: int)
    ensures BoundTo(s, ps, 0, first, gid) == s
    ensures BoundTo(s, ps, |ps|, first, gid) == BoundAll(s, ps, first, gid, {})
  {
    assert ps[..|ps|] == ps;
  }

  lemma BoundToNext(s: Store, ps: seq<Profile>, i: nat, first: int, gid: int)
    requires i < |ps|
    ensures BoundTo(s, ps, i + 1, first, gid) == Bound(BoundTo(s, ps, i, first, gid), ps[i], first + i, gid, false)
  {
    BoundAllNext(s, ps, i, first, gid, {});
  }

  lemma NoRepeatsAt(ps: seq<Profile>, i: nat, j: nat)
    requires NoRepeats(ps) && i < |ps| && j < |ps| && ps[i] == ps[j]
    ensures i == j
  {}

  /** What adding a batch does: every object listed is bound to the next id of the block, again if it is
      listed again; the rows collected afterwards go to the table in chunks. The table ends with a row for
      an id of the block exactly where one is stored, and with one for each of them exactly if no object is
      listed twice. */
  ghost predicate BatchAdded(s: Store, ps: seq<Profile>, first: int, gid: int, groups: set<int>, s': Store) {
    && AllHeld(ps, s.held.Keys)
    && s' == BoundAll(s, ps, first, gid, s'.rows.Keys)
    && s'.rows == Taken(s.rows, RowsOf(s'.held, ps), groups)
    && (Block(first - 1, |ps|) <= s'.rows.Keys <==> NoRepeats(ps))
  }

  function Reserved(s: Store, n: nat): Store {
    s.(lastId := s.lastId + n)
  }

  function WithRows(s: Store, rows: map<int, Row>): Store {
    s.(rows := rows)
  }

  ghost predicate RowsBehind(s: Store) {
    forall id :: id in s.rows ==> id <= s.lastId
  }

  /** The state after adding a batch: a block of ids is taken, the objects are bound to them in order, and
      the rows collected from the objects go to the table. */
  ghost function BatchResult(s: Store, ps: seq<Profile>, gid: int, groups: set<int>): Store {
    BatchTaken(BatchBound(s, ps, gid), ps, groups)
  }

  function BatchBound(s: Store, ps: seq<Profile>, gid: int): Store {
    BoundAll(Reserved(s, |ps|), ps, s.lastId + 1, gid, {})
  }

  ghost function BatchTaken(s: Store, ps: seq<Profile>, groups: set<int>): Store {
    WithRows(s, Taken(s.rows, RowsOf(s.held, ps), groups))
  }

  lemma BatchInTwo(s: Store, ps: seq<Profile>, gid: int, groups: set<int>)
    ensures BatchTaken(BatchBound(s, ps, gid), ps, groups) == BatchResult(s, ps, gid, groups)
  {}

  lemma NothingAdded(s: Store, gid: int, groups: set<int>)
    ensures BatchResult(s, [], gid, groups) == s
  {
    assert Reserved(s, 0) == s;
    assert RowsOf(s.held, []) == [];
  }

  /** After binding a block and storing its rows as far as the table takes them. */
  lemma BatchStored(s: Store, ps: seq<Profile>, gid: int, groups: set<int>)
    requires AllHeld(ps, s.held.Keys) && gid in groups && RowsBehind(s)
    ensures BatchAdded(Reserved(s, |ps|), ps, s.lastId + 1, gid, groups, BatchResult(s, ps, gid, groups))
  {
    hide Storing, BatchAdded, BatchTaken, BoundAll;
    BatchStores(Reserved(s, |ps|), ps, s.lastId + 1, gid, groups);
    BatchExact(Reserved(s, |ps|), ps, s.lastId + 1, gid, groups);
  }

  /** What the table takes of a batch. */
  ghost predicate Storing(s: Store, ps: seq<Profile>, first: int, gid: int, groups: set<int>) {
    var b := BoundAll(s, ps, first, gid, {});
    var taken := Taken(s.rows, RowsOf(b.held, ps), groups);
    && b.rows == s.rows
    && taken == BoundAll(s, ps, first, gid, taken.Keys).rows
    && (Block(first - 1, |ps|) <= taken.Keys <==> NoRepeats(ps))
  }

  lemma BatchStores(s: Store, ps: seq<Profile>, first: int, gid: int, groups: set<int>)
    requires AllHeld(ps, s.held.Keys) && gid in groups
    requires forall id :: id in s.rows ==> id < first
    ensures Storing(s, ps, first, gid, groups)
  {
    hide BoundAll, Taken, RowsOf, AllHeld, NoRepeats, Block, Fits;
    BoundNoRows(s, ps, first, gid);
    StoredRows(s, ps, first, gid, groups);
    StoredAll(s, ps, first, gid, groups);
  }

  lemma BatchExact(s: Store, ps: seq<Profile>, first: int, gid: int, groups: set<int>)
    requires AllHeld(ps, s.held.Keys) && Storing(s, ps, first, gid, groups)
    ensures BatchAdded(s, ps, first, gid, groups, BatchTaken(BoundAll(s, ps, first, gid, {}), ps, groups))
  {
    hide Taken, BoundAll, AllHeld, NoRepeats, Block, RowsOf;
    BoundStored(s, ps, first, gid, {}, BatchTaken(BoundAll(s, ps, first, gid, {}), ps, groups).rows.Keys);
  }

  lemma {:induction false} BoundNoRows(s: Store, ps: seq<Profile>, first: int, gid: int)
    ensures BoundAll(s, ps, first, gid, {}).rows == s.rows
  {
    if ps != [] { BoundNoRows(s, ps[..|ps| - 1], first, gid); }
  }

  /** Storing collected rows is storing rows one by one, for the ids that are stored. */
  lemma StoredRows(s: Store, ps: seq<Profile>, first: int, gid: int, groups: set<int>)
    requires AllHeld(ps, s.held.Keys)
    requires forall id :: id in s.rows ==> id < first
    ensures var taken := Taken(s.rows, RowsOf(BoundAll(s, ps, first, gid, {}).held, ps), groups);
      taken == BoundAll(s, ps, first, gid, taken.Keys).rows
  {
    var rows := RowsOf(BoundAll(s, ps, first, gid, {}).held, ps);
    var taken := Taken(s.rows, rows, groups);
    var b := BoundAll(s, ps, first, gid, taken.Keys).rows;
    TakenKeeps(s.rows, rows, groups);
    forall id ensures id in taken <==> id in b
              ensures id in taken ==> taken[id] == b[id]
    {
      BoundRow(s, ps, first, gid, taken.Keys, id);
      if id in taken { TakenFromBlock(s, ps, first, gid, groups, id); }
      hide Taken, BoundAll, RowsOf;
    }
  }

  lemma TakenFromBlock(s: Store, ps: seq<Profile>, first: int, gid: int, groups: set<int>, id: int)
    requires AllHeld(ps, s.held.Keys)
    requires id in Taken(s.rows, RowsOf(BoundAll(s, ps, first, gid, {}).held, ps), groups)
    ensures var taken := Taken(s.rows, RowsOf(BoundAll(s, ps, first, gid, {}).held, ps), groups);
      if id in s.rows then taken[id] == s.rows[id]
      else first <= id < first + |ps| && taken[id] == Row(gid, s.held[ps[id - first]].row.data)
  {
    hide Taken, BoundAll, AllHeld;
    var rows := RowsOf(BoundAll(s, ps, first, gid, {}).held, ps);
    var k := TakenRow(s.rows, rows, groups, id);
    if id !in s.rows {
      BoundRowAt(s, ps, first, gid, k);
    }
  }

  lemma BoundRowAt(s: Store, ps: seq<Profile>, first: int, gid: int, k: nat)
    requires AllHeld(ps, s.held.Keys) && k < |RowsOf(BoundAll(s, ps, first, gid, {}).held, ps)|
    ensures var r := RowsOf(BoundAll(s, ps, first, gid, {}).held, ps)[k];
      first <= r.id < first + |ps| && r.row == Row(gid, s.held[ps[r.id - first]].row.data)
  {
    var held := BoundAll(s, ps, first, gid, {}).held;
    assert |RowsOf(held, ps)| == |ps|;
    BoundIds(s, ps, first, gid, {}, k);
    hide BoundAll, RowsOf;
  }

  lemma StoredAll(s: Store, ps: seq<Profile>, first: int, gid: int, groups: set<int>)
    requires AllHeld(ps, s.held.Keys) && gid in groups
    requires forall id :: id in s.rows ==> id < first
    ensures Block(first - 1, |ps|) <= Taken(s.rows, RowsOf(BoundAll(s, ps, first, gid, {}).held, ps), groups).Keys
      <==> NoRepeats(ps)
  {
    var rows := RowsOf(BoundAll(s, ps, first, gid, {}).held, ps);
    hide Fits, BoundAll, IdsOf, AllHeld;
    if NoRepeats(ps) {
      IdsInOrder(s, ps, first, gid);
      FitsInOrder(rows, first, gid, s.rows, groups);
      TakenAll(s.rows, rows, groups);
      hide NoRepeats, Inserted, Block, Taken;
    } else {
      SkippedId(s, ps, first, gid, groups);
      hide NoRepeats, Inserted, Block, Taken;
    }
  }

  lemma IdsInOrder(s: Store, ps: seq<Profile>, first: int, gid: int)
    requires AllHeld(ps, s.held.Keys) && NoRepeats(ps)
    ensures var rows := RowsOf(BoundAll(s, ps, first, gid, {}).held, ps);
      |rows| == |ps| && forall k :: 0 <= k < |ps| ==> rows[k].id == first + k && rows[k].row.gid == gid
  {
    var rows := RowsOf(BoundAll(s, ps, first, gid, {}).held, ps);
    forall k | 0 <= k < |ps| ensures rows[k].id == first + k && rows[k].row.gid == gid {
      BoundIds(s, ps, first, gid, {}, k);
      NoRepeatsAt(ps, k, rows[k].id - first);
    }
  }

  lemma FitsInOrder(rows: seq<InsertRow>, first: int, gid: int, profiles: map<int, Row>, groups: set<int>)
    requires forall k :: 0 <= k < |rows| ==> rows[k].id == first + k && rows[k].row.gid == gid
    requires gid in groups && forall id :: id in profiles ==> id < first
    ensures Fits(rows, profiles, groups) && Block(first - 1, |rows|) <= IdsOf(rows)
  {
    forall id | id in Block(first - 1, |rows|) ensures id in IdsOf(rows) {
      assert rows[id - first].id == id;
    }
  }

  lemma SkippedId(s: Store, ps: seq<Profile>, first: int, gid: int, groups: set<int>)
    requires AllHeld(ps, s.held.Keys) && !NoRepeats(ps)
    requires forall id :: id in s.rows ==> id < first
    ensures !(Block(first - 1, |ps|) <= Taken(s.rows, RowsOf(BoundAll(s, ps, first, gid, {}).held, ps), groups).Keys)
  {
    var rows := RowsOf(BoundAll(s, ps, first, gid, {}).held, ps);
    var i: nat, j: nat :| i < j < |ps| && ps[i] == ps[j];
    if first + i in Taken(s.rows, rows, groups) {
      var k := TakenRow(s.rows, rows, groups, first + i);
      IdPassedOver(s, ps, first, gid, i, j, k);
    }
    assert first + i in Block(first - 1, |ps|);
  }

  /** An object listed at i and again at j does not keep the id it was given at i, and nobody else has it. */
  lemma IdPassedOver(s: Store, ps: seq<Profile>, first: int, gid: int, i: nat, j: nat, k: nat)
    requires AllHeld(ps, s.held.Keys) && i < j < |ps| && ps[i] == ps[j] && k < |ps|
    ensures BoundAll(s, ps, first, gid, {}).held[ps[k]].id != first + i
  {
    BoundIds(s, ps, first, gid, {}, j);
    BoundIds(s, ps, first, gid, {}, k);
    hide BoundAll;
  }

  /** After a batch the identity map finds the right object for every id exactly if no object is listed
      twice. */
  lemma BatchNamedExactly(sys: System, ps: seq<Profile>, first: int, gid: int, stored: set<int>)
    requires Unique(sys) && Named(sys.store) && AllHeld(ps, sys.store.held.Keys)
    requires forall i :: 0 <= i < |ps| ==> sys.store.held[ps[i]].id < 0
    ensures Named(BoundAll(sys.store, ps, first, gid, stored)) <==> NoRepeats(ps)
  {
    var s, b := sys.store, BoundAll(sys.store, ps, first, gid, stored);
    hide BoundAll;
    if NoRepeats(ps) {
      forall id | Live(b, id) ensures b.held[b.cache[id]].id == id {
        BoundCache(s, ps, first, gid, stored, id);
        if first <= id < first + |ps| {
          BoundIds(s, ps, first, gid, stored, id - first);
          NoRepeatsAt(ps, id - first, b.held[ps[id - first]].id - first);
        } else {
          assert Live(s, id);
          BoundData(s, ps, first, gid, stored, s.cache[id]);
        }
      }
    } else {
      var i: nat, j: nat :| i < j < |ps| && ps[i] == ps[j];
      BoundCache(s, ps, first, gid, stored, first + i);
      BoundIds(s, ps, first, gid, stored, j);
      assert Live(b, first + i);
    }
  }

  /** A new profile listed twice: asking for the first id gives an object with the second. */
  lemma ListedTwice(s: Store, p: Profile, first: int, gid: int, stored: set<int>)
    requires p in s.held
    ensures var b := BoundAll(s, [p, p], first, gid, stored);
      Live(b, first) && b.cache[first] == p && b.held[p].id == first + 1
  {
    BoundCache(s, [p, p], first, gid, stored, first);
    BoundIds(s, [p, p], first, gid, stored, 1);
  }

  // ----- a batch as a run

  /** After k objects of a batch. */
  ghost function AfterBinds(sys: System, ps: seq<Profile>, k: nat, first: int, gid: int, stored: set<int>): System
    requires k <= |ps|
  {
    System(BoundAll(sys.store, ps[..k], first, gid, stored), sys.reserved - Block(first - 1, k), sys.issued)
  }

  lemma BindStep(sys: System, ps: seq<Profile>, k: nat, first: int, gid: int, stored: set<int>)
    requires k < |ps| && AllHeld(ps, sys.store.held.Keys)
    requires Block(first - 1, |ps|) <= sys.reserved
    ensures Step(AfterBinds(sys, ps, k, first, gid, stored), Bind(ps[k], first + k, gid, first + k in stored),
                 AfterBinds(sys, ps, k + 1, first, gid, stored))
  {
    hide Bound, BoundAll, Block;
    BoundAllNext(sys.store, ps, k, first, gid, stored);
    BlockNext(sys.reserved, first, k);
    assert first + k in Block(first - 1, |ps|);
  }

  lemma BlockNext(ids: set<int>, first: int, k: nat)
    ensures first + k !in Block(first - 1, k)
    ensures ids - Block(first - 1, k) - {first + k} == ids - Block(first - 1, k + 1)
    ensures ids - Block(first - 1, 0) == ids
  {}

  lemma BoundAllNext(s: Store, ps: seq<Profile>, k: nat, first: int, gid: int, stored: set<int>)
    requires k < |ps|
    ensures BoundAll(s, ps[..k + 1], first, gid, stored)
      == Bound(BoundAll(s, ps[..k], first, gid, stored), ps[k], first + k, gid, first + k in stored)
  {
    assert ps[..k + 1][..k] == ps[..k];
  }

  /** The steps of a batch: its ids are taken from the counter, and the objects bound one after the other. */
  ghost function BatchActions(s: Store, ps: seq<Profile>, gid: int, stored: set<int>): (actions: seq<Action>)
    ensures |actions| == |ps| + 1 && actions[0] == Reserve(|ps|)
    ensures forall j: nat :: 0 < j <= |ps| ==> actions[j] == Bind(ps[j - 1], s.lastId + j, gid, s.lastId + j in stored)
  {
    [Reserve(|ps|)] + seq(|ps|, k requires 0 <= k < |ps| => Bind(ps[k], s.lastId + 1 + k, gid, s.lastId + 1 + k in stored))
  }

  /** The states of that run from taking the ids on. */
  ghost function BatchStates(sys: System, ps: seq<Profile>, gid: int, stored: set<int>): (states: seq<System>)
    ensures |states| == |ps| + 2 && states[0] == sys
    ensures forall j: nat :: 0 < j <= |ps| + 1 ==>
      states[j] == AfterBinds(AfterReserve(sys, |ps|), ps, j - 1, sys.store.lastId + 1, gid, stored)
  {
    [sys] + seq(|ps| + 1, k requires 0 <= k < |ps| + 1 =>
      AfterBinds(AfterReserve(sys, |ps|), ps, k, sys.store.lastId + 1, gid, stored))
  }

  function AfterReserve(sys: System, n: nat): System {
    var block := Block(sys.store.lastId, n);
    System(Reserved(sys.store, n), sys.reserved + block, sys.issued + block)
  }

  /** Adding a batch, with or without repetitions, is a run of the transition relation. */
  lemma BatchIsRun(sys: System, ps: seq<Profile>, gid: int, groups: set<int>, s': Store)
      returns (states: seq<System>, actions: seq<Action>)
    requires Behind(sys) && AllHeld(ps, sys.store.held.Keys)
    requires BatchAdded(Reserved(sys.store, |ps|), ps, sys.store.lastId + 1, gid, groups, s')
    ensures actions == BatchActions(sys.store, ps, gid, s'.rows.Keys)
    ensures |states| == |ps| + 2 && Run(states, actions) && states[0] == sys
    ensures states[|ps| + 1] == System(s', sys.reserved, sys.issued + Block(sys.store.lastId, |ps|))
  {
    var stored := s'.rows.Keys;
    actions, states := BatchActions(sys.store, ps, gid, stored), BatchStates(sys, ps, gid, stored);
    LastState(sys, ps, gid, stored);
    hide Behind, BatchAdded, BatchActions, BatchStates, Step;
    forall i: nat | i < |actions| ensures StepAt(states, actions, i) {
      BatchStep(sys, ps, gid, stored, i);
    }
  }

  lemma LastState(sys: System, ps: seq<Profile>, gid: int, stored: set<int>)
    requires Behind(sys)
    ensures BatchStates(sys, ps, gid, stored)[|ps| + 1]
      == System(BoundAll(Reserved(sys.store, |ps|), ps, sys.store.lastId + 1, gid, stored),
                sys.reserved, sys.issued + Block(sys.store.lastId, |ps|))
  {
    hide BatchStates, BoundAll;
    assert ps[..|ps|] == ps;
    var block := Block(sys.store.lastId, |ps|);
    assert sys.reserved + block - block == sys.reserved;
  }

  lemma BatchStep(sys: System, ps: seq<Profile>, gid: int, stored: set<int>, i: nat)
    requires i <= |ps| && AllHeld(ps, sys.store.held.Keys)
    ensures Step(BatchStates(sys, ps, gid, stored)[i], BatchActions(sys.store, ps, gid, stored)[i],
                 BatchStates(sys, ps, gid, stored)[i + 1])
  {
    hide Step, BatchStates, BatchActions, AfterBinds, AllHeld;
    if i == 0 {
      FirstStep(sys, ps, gid, stored);
    } else {
      BindStep(AfterReserve(sys, |ps|), ps, i - 1, sys.store.lastId + 1, gid, stored);
    }
  }

  lemma FirstStep(sys: System, ps: seq<Profile>, gid: int, stored: set<int>)
    ensures Step(BatchStates(sys, ps, gid, stored)[0], BatchActions(sys.store, ps, gid, stored)[0],
                 BatchStates(sys, ps, gid, stored)[1])
  {
    hide BatchStates, BatchActions;
    var sys1 := AfterReserve(sys, |ps|);
    BlockNext(sys1.reserved, sys.store.lastId + 1, 0);
    assert AfterBinds(sys1, ps, 0, sys.store.lastId + 1, gid, stored) == sys1;
  }

  /** So a batch keeps one object for each id, whatever is listed. */
  lemma BatchKeepsUnique(sys: System, ps: seq<Profile>, gid: int, groups: set<int>, s': Store)
    requires Unique(sys) && AllHeld(ps, sys.store.held.Keys)
    requires BatchAdded(Reserved(sys.store, |ps|), ps, sys.store.lastId + 1, gid, groups, s')
    ensures Unique(System(s', sys.reserved, sys.issued + Block(sys.store.lastId, |ps|)))
  {
    hide *;
    UniqueIsBehind(sys);
    var states, actions := BatchIsRun(sys, ps, gid, groups, s');
    NoRestores(sys.store, ps, gid, s'.rows.Keys);
    OneObjectForEachId(states, actions, |ps| + 1);
  }

  lemma UniqueIsBehind(sys: System)
    requires Unique(sys)
    ensures Behind(sys)
  {
    hide Behind, Consistent;
  }

  /** And the identity map finds the right objects afterwards exactly if no object is listed twice. */
  lemma BatchStaysNamed(sys: System, ps: seq<Profile>, gid: int, groups: set<int>, s': Store)
    requires Unique(sys) && Named(sys.store) && AllHeld(ps, sys.store.held.Keys)
    requires forall i :: 0 <= i < |ps| ==> sys.store.held[ps[i]].id < 0
    requires BatchAdded(Reserved(sys.store, |ps|), ps, sys.store.lastId + 1, gid, groups, s')
    ensures Named(s') <==> NoRepeats(ps)
  {
    hide Unique, Named, NoRepeats, BoundAll, Taken, RowsOf;
    AfterReserveNamed(sys, |ps|);
    BatchNamedExactly(AfterReserve(sys, |ps|), ps, sys.store.lastId + 1, gid, s'.rows.Keys);
  }

  /** What AddProfileBatch leaves is reached by a run, keeps one object for each id, and names every object
      rightly and stores every profile exactly if no object is listed twice. */
  lemma AddedBatch(sys: System, ps: seq<Profile>, gid: int, groups: set<int>)
    requires Unique(sys) && Named(sys.store) && AllHeld(ps, sys.store.held.Keys) && gid in groups
    requires forall i :: 0 <= i < |ps| ==> sys.store.held[ps[i]].id < 0
    ensures var s, s' := sys.store, BatchResult(sys.store, ps, gid, groups);
      && BatchAdded(Reserved(s, |ps|), ps, s.lastId + 1, gid, groups, s')
      && Unique(System(s', sys.reserved, sys.issued + Block(s.lastId, |ps|)))
      && (Named(s') <==> NoRepeats(ps))
      && (Block(s.lastId, |ps|) <= s'.rows.Keys <==> NoRepeats(ps))
  {
    hide *;
    UniqueRows(sys);
    BatchStored(sys.store, ps, gid, groups);
    AddedKeys(Reserved(sys.store, |ps|), ps, sys.store.lastId + 1, gid, groups, BatchResult(sys.store, ps, gid, groups));
    BatchKeepsUnique(sys, ps, gid, groups, BatchResult(sys.store, ps, gid, groups));
    BatchStaysNamed(sys, ps, gid, groups, BatchResult(sys.store, ps, gid, groups));
  }

  lemma UniqueRows(sys: System)
    requires Unique(sys)
    ensures RowsBehind(sys.store)
  {}

  lemma AddedKeys(s: Store, ps: seq<Profile>, first: int, gid: int, groups: set<int>, s': Store)
    requires BatchAdded(s, ps, first, gid, groups, s')
    ensures Block(first - 1, |ps|) <= s'.rows.Keys <==> NoRepeats(ps)
  {}

  lemma NoRestores(s: Store, ps: seq<Profile>, gid: int, stored: set<int>)
    ensures var actions := BatchActions(s, ps, gid, stored);
      RestartsAfterRestore(actions) && ProperBackups(actions) && !actions[|ps|].Restore?
  {
    var actions := BatchActions(s, ps, gid, stored);
    forall i: nat | i < |actions| ensures actions[i].Reserve? || actions[i].Bind? {
      if i > 0 { assert actions[i].Bind?; }
    }
    hide BatchActions;
  }

  lemma AfterReserveNamed(sys: System, n: nat)
    requires Unique(sys) && Named(sys.store)
    ensures Unique(AfterReserve(sys, n)) && Named(AfterReserve(sys, n).store)
  {
    var sys1 := AfterReserve(sys, n);
    assert Step(sys, Reserve(n), sys1);
    hide Unique, Step, Named;
    StepKeepsUnique(sys, Reserve(n), sys1);
    NamedExactly(sys, Reserve(n), sys1);
  }

  lemma BoundInTwo(s: Store, p: Profile, id: int, gid: int, stored: bool)
    requires p in s.held
    ensures var mid := Bound(s, p, id, gid, false);
      && p in mid.held
      && mid.(rows := if stored then s.rows[id := mid.held[p].row] else s.rows) == Bound(s, p, id, gid, stored)
  {}

  /** The profiles without an id, in order. */
  ghost function New(ps: seq<Profile>, held: map<Profile, Content>): (new_: seq<Profile>)
    requires AllHeld(ps, held.Keys)
    ensures AllHeld(new_, held.Keys)
    ensures forall i :: 0 <= i < |new_| ==> held[new_[i]].id < 0
  {
    if ps == [] then []
    else
      var n := |ps| - 1;
      New(ps[..n], held) + if held[ps[n]].id < 0 then [ps[n]] else []
  }

  ghost predicate NoRepeats(ps: seq<Profile>) {
    forall i, j :: 0 <= i < j < |ps| ==> ps[i] != ps[j]
  }

  predicate LoadedFrom(rows: map<int, Row>, id: int, p: Profile)
    reads p
  {
    id in rows && p.id == id && Row(p.gid, p.data) == rows[id]
  }

  lemma SetOfAppend(ids: seq<int>, id: int)
    ensures SetOf(ids + [id]) == SetOf(ids) + {id}
  {
    var all := ids + [id];
    SetOfStep(all);
    assert all[..|all| - 1] == ids;
  }

  lemma {:induction false} SetOfSlices(ids: seq<int>, i: nat, j: nat)
    requires i <= j <= |ids|
    ensures SetOf(ids[..j]) == SetOf(ids[..i]) + SetOf(ids[i..j])
  {
    if i < j {
      SetOfSlices(ids, i, j - 1);
      SetOfAppend(ids[..j - 1], ids[j - 1]);
      SetOfAppend(ids[i..j - 1], ids[j - 1]);
      assert ids[..j] == ids[..j - 1] + [ids[j - 1]];
      assert ids[i..j] == ids[i..j - 1] + [ids[j - 1]];
    } else {
      assert SetOf(ids[i..j]) == {};
    }
  }
}
