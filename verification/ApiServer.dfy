/**
 One API-server collection with optimistic concurrency. A collection remembers every version it ever
 stored, so that a step elsewhere may act on any of them: this covers every interleaving of a read with
 other writers, and reads served from a stale cache.
 */
module ApiServer {
  datatype Version<Sp, St> =
    Version(name: string, uid: nat, revision: nat, generation: nat, spec: Sp, status: St, deleting: bool)

  datatype Store<Sp(==), St(==)> =
    Store(live: map<string, Version<Sp, St>>, history: set<Version<Sp, St>>, nextUid: nat, nextRevision: nat)

  /** What users do. An edit that changes the spec always bumps the generation; a metadata edit may. */
  datatype UserEdit<Sp> =
    | Create(name: string, spec: Sp)
    | Edit(name: string, spec: Sp, deleting: bool, bump: bool)
    | Remove(name: string)

  function Empty<Sp(==), St(==)>(): Store<Sp, St>
  {
    Store(map[], {}, 0, 0)
  }

  function Save<Sp(==), St(==)>(s: Store<Sp, St>, v: Version<Sp, St>): Store<Sp, St>
  {
    s.(live := s.live[v.name := v], history := s.history + {v}, nextRevision := s.nextRevision + 1)
  }

  function ApplyEdit<Sp(==), St(==)>(s: Store<Sp, St>, e: UserEdit<Sp>, empty: St): Store<Sp, St>
  {
    match e
    case Create(name, spec) =>
      if name in s.live then s
      else Save(s, Version(name, s.nextUid, s.nextRevision, 1, spec, empty, false)).(nextUid := s.nextUid + 1)
    case Edit(name, spec, deleting, bump) =>
      if name !in s.live then s
      else
        var v := s.live[name];
        var generation := if bump || spec != v.spec then v.generation + 1 else v.generation;
        Save(s, v.(revision := s.nextRevision, generation := generation, spec := spec, deleting := deleting))
    case Remove(name) => s.(live := s.live - {name})
  }

  /** A status write is accepted only against the revision that was read. */
  predicate Accepts<Sp(==), St(==)>(s: Store<Sp, St>, read: Version<Sp, St>)
  {
    read.name in s.live && s.live[read.name].revision == read.revision
  }

  function WriteStatus<Sp(==), St(==)>(s: Store<Sp, St>, read: Version<Sp, St>, status: St): Store<Sp, St>
  {
    if Accepts(s, read) then Save(s, read.(status := status, revision := s.nextRevision)) else s
  }

  ghost predicate StoreInv<Sp(!new), St(!new)>(s: Store<Sp, St>)
  {
    && (forall n :: n in s.live ==> s.live[n].name == n && s.live[n] in s.history)
    && (forall v :: v in s.history ==> v.revision < s.nextRevision && v.uid < s.nextUid && v.generation >= 1)
    && (forall v, w :: v in s.history && w in s.history && v.revision == w.revision ==> v == w)
    && (forall v, w :: v in s.history && w in s.history && v.uid == w.uid ==> v.name == w.name)
    && (forall v, w :: v in s.history && w in s.history && v.uid == w.uid && v.generation == w.generation
          ==> v.spec == w.spec)
    && (forall v, n :: v in s.history && n in s.live && v.uid == s.live[n].uid ==> v.generation <= s.live[n].generation)
  }

  /** What makes a version safe to store: newest of its uid, with the spec its generation already had. */
  ghost predicate Extends<Sp(!new), St(!new)>(s: Store<Sp, St>, v: Version<Sp, St>)
  {
    && v.revision == s.nextRevision && v.uid < s.nextUid && v.generation >= 1
    && (forall w :: w in s.history && w.uid == v.uid ==>
          w.name == v.name && w.generation <= v.generation && (w.generation == v.generation ==> w.spec == v.spec))
  }

  lemma SaveKeepsInv<Sp(!new), St(!new)>(s: Store<Sp, St>, v: Version<Sp, St>)
    requires StoreInv(s) && Extends(s, v)
    ensures StoreInv(Save(s, v))
  {
    var t := Save(s, v);
    assert forall w :: w in t.history ==> w in s.history || w == v;
    forall n | n in t.live
      ensures t.live[n].name == n && t.live[n] in t.history
    {
      if n != v.name {
        assert t.live[n] == s.live[n];
      }
    }
    forall w, n | w in t.history && n in t.live && w.uid == t.live[n].uid
      ensures w.generation <= t.live[n].generation
    {
      if n != v.name {
        assert t.live[n] == s.live[n] && s.live[n] in s.history;
      }
    }
  }

  lemma CreateKeepsInv<Sp(!new), St(!new)>(s: Store<Sp, St>, name: string, spec: Sp, empty: St)
    requires StoreInv(s)
    ensures StoreInv(ApplyEdit(s, Create(name, spec), empty))
  {
    if name !in s.live {
      var grown := s.(nextUid := s.nextUid + 1);
      SaveKeepsInv(grown, Version(name, s.nextUid, s.nextRevision, 1, spec, empty, false));
    }
  }

  lemma RemoveKeepsInv<Sp(!new), St(!new)>(s: Store<Sp, St>, name: string, empty: St)
    requires StoreInv(s)
    ensures StoreInv(ApplyEdit(s, Remove(name), empty))
  {
    var t := s.(live := s.live - {name});
    assert forall n :: n in t.live ==> n in s.live && t.live[n] == s.live[n];
  }

  /** An edit extends the store: same object, and a new generation whenever the spec changes. */
  lemma EditExtends<Sp(!new), St(!new)>(s: Store<Sp, St>, name: string, spec: Sp, deleting: bool, generation: nat)
    requires StoreInv(s) && name in s.live
    requires var v := s.live[name]; generation >= v.generation && (generation == v.generation ==> spec == v.spec)
    ensures var v := s.live[name];
      Extends(s, v.(revision := s.nextRevision, generation := generation, spec := spec, deleting := deleting))
  {
    assert s.live[name] in s.history;
  }

  lemma ChangeKeepsInv<Sp(!new), St(!new)>(
    s: Store<Sp, St>, name: string, spec: Sp, deleting: bool, bump: bool, empty: St)
    requires StoreInv(s)
    ensures StoreInv(ApplyEdit(s, Edit(name, spec, deleting, bump), empty))
  {
    if name in s.live {
      var v := s.live[name];
      var generation := if bump || spec != v.spec then v.generation + 1 else v.generation;
      EditExtends(s, name, spec, deleting, generation);
      SaveKeepsInv(s, v.(revision := s.nextRevision, generation := generation, spec := spec, deleting := deleting));
    }
  }

  lemma EditKeepsInv<Sp(!new), St(!new)>(s: Store<Sp, St>, e: UserEdit<Sp>, empty: St)
    requires StoreInv(s)
    ensures StoreInv(ApplyEdit(s, e, empty))
  {
    match e
    case Create(name, spec) => CreateKeepsInv(s, name, spec, empty);
    case Remove(name) => RemoveKeepsInv(s, name, empty);
    case Edit(name, spec, deleting, bump) => ChangeKeepsInv(s, name, spec, deleting, bump, empty);
  }

  /** A reader whose write is accepted had read the live object, whatever happened in between. */
  lemma AcceptedReadIsLive<Sp(!new), St(!new)>(s: Store<Sp, St>, read: Version<Sp, St>)
    requires StoreInv(s) && read in s.history && Accepts(s, read)
    ensures s.live[read.name] == read
  {
    assert s.live[read.name] in s.history;
  }

  lemma WriteKeepsInv<Sp(!new), St(!new)>(s: Store<Sp, St>, read: Version<Sp, St>, status: St)
    requires StoreInv(s) && read in s.history
    ensures StoreInv(WriteStatus(s, read, status))
  {
    if Accepts(s, read) {
      AcceptedReadIsLive(s, read);
      SaveKeepsInv(s, read.(status := status, revision := s.nextRevision));
    }
  }

  /** `v` is `basis` or a later version of it with the same status, and with the same spec within a generation. */
  predicate Carries<Sp(==), St(==)>(basis: Version<Sp, St>, v: Version<Sp, St>)
  {
    && basis.uid == v.uid && basis.status == v.status && basis.generation <= v.generation
    && (basis.generation == v.generation ==> basis.spec == v.spec)
  }

  /** What an edit does to statuses: it carries old ones along, and a created object starts with none. */
  ghost predicate EditShape<Sp(!new), St(!new)>(s: Store<Sp, St>, t: Store<Sp, St>, empty: St)
  {
    && s.nextUid <= t.nextUid && s.history <= t.history
    && (forall v :: v in t.history && v !in s.history ==>
          v.status == empty || exists basis :: basis in s.history && Carries(basis, v))
    && (forall n :: n in t.live ==>
          || (n in s.live && Carries(s.live[n], t.live[n]))
          || (t.live[n].status == empty && t.live[n].uid >= s.nextUid))
  }

  /** What a status write does: it changes at most the live object it read, and only its status. */
  ghost predicate WriteShape<Sp(!new), St(!new)>(s: Store<Sp, St>, t: Store<Sp, St>, read: Version<Sp, St>, status: St)
  {
    && t.nextUid == s.nextUid && s.history <= t.history && read.uid < s.nextUid
    && (forall v :: v in t.history && v !in s.history ==>
          v.uid == read.uid && v.generation == read.generation && v.spec == read.spec && v.status == status)
    && (forall n :: n in t.live ==>
          if Accepts(s, read) && n == read.name
          then t.live[n].uid == read.uid && t.live[n].generation == read.generation && t.live[n].status == status
          else n in s.live && t.live[n] == s.live[n] && (Accepts(s, read) ==> s.live[n].uid != read.uid))
  }

  lemma EditHasShape<Sp(!new), St(!new)>(s: Store<Sp, St>, e: UserEdit<Sp>, empty: St)
    requires StoreInv(s)
    ensures EditShape(s, ApplyEdit(s, e, empty), empty)
  {
    var t := ApplyEdit(s, e, empty);
    forall v | v in t.history && v !in s.history
      ensures v.status == empty || exists basis :: basis in s.history && Carries(basis, v)
    {
      if e.Edit? {
        assert Carries(s.live[e.name], v);
      }
    }
  }

  lemma WriteHasShape<Sp(!new), St(!new)>(s: Store<Sp, St>, read: Version<Sp, St>, status: St)
    requires StoreInv(s) && read in s.history
    ensures WriteShape(s, WriteStatus(s, read, status), read, status)
  {
    if Accepts(s, read) {
      AcceptedReadIsLive(s, read);
    }
  }
}
