/**
  Sequences of calls on one `UserService`: the three operations applied in
  turn to one state holding the avatar collection, the avatar directory and
  the user collection. Calls are sequential; each carries the behaviour of
  its collaborators for that call.
 */
module Sessions {
  import opened Common
  import opened Constants
  import opened RecordStore
  import opened AvatarCache
  import opened Provisioning
  import Base64

  datatype Service = Service(stores: Stores, users: seq<User>)

  datatype Call =
    | GetAvatarCall(userId: string, avatarEnv: AvatarEnv)
    | DeleteAvatarCall(userId: string, deleteEnv: DeleteEnv)
    | CreateCall(dto: UserDto, createEnv: CreateEnv)

  /** One call: the new state and the collaborator calls it made. */
  function Apply(svc: Service, call: Call): (r: (Service, seq<Effect>))
    // the avatar operations never touch users, and create never touches avatars
    ensures call.CreateCall? ==> r.0.stores == svc.stores
    ensures !call.CreateCall? ==> r.0.users == svc.users
    ensures svc.users <= r.0.users
  {
    match call
    case GetAvatarCall(userId, env) =>
      var o := GetAvatar(svc.stores, userId, env);
      (svc.(stores := o.state), o.trace)
    case DeleteAvatarCall(userId, env) =>
      var o := DeleteAvatar(svc.stores, userId, env);
      (svc.(stores := o.state), o.trace)
    case CreateCall(dto, env) =>
      var o := Create(svc.users, dto, env);
      assert o.state == o.state[..|svc.users|] + o.state[|svc.users|..];
      (svc.(users := o.state), o.trace)
  }

  /** The calls in order: the final state and every collaborator call made. */
  function Run(svc: Service, calls: seq<Call>): (r: (Service, seq<Effect>))
    // users are only ever added, never removed or changed
    ensures svc.users <= r.0.users
    // a run of avatar calls alone creates no user
    ensures (forall i :: 0 <= i < |calls| ==> !calls[i].CreateCall?) ==> r.0.users == svc.users
    decreases |calls|
  {
    if |calls| == 0 then (svc, [])
    else
      var (next, t) := Apply(svc, calls[0]);
      var (last, rest) := Run(next, calls[1..]);
      (last, t + rest)
  }

  // ---------------------------------------------------------------------
  // The two stores agree

  /** Every document is filed under its own user id, and wherever a user has
      both a stored payload and a file, the payload is the encoding of the
      file's bytes. */
  ghost predicate Coherent(st: Stores) {
    && WellKeyed(st.records)
    && forall id :: id in st.records && st.records[id].avatarBase64.Some? && AvatarFileName(id) in st.files ==>
         Base64.Encode(st.files[AvatarFileName(id)]) == st.records[id].avatarBase64.value
  }

  lemma {:induction false} GetAvatarKeepsCoherent(st: Stores, userId: string, env: AvatarEnv)
    requires Coherent(st)
    ensures Coherent(GetAvatar(st, userId, env).state)
  {
    var o := GetAvatar(st, userId, env);
    if env.lookup.Some? || IsHit(st.records, userId) {
      assert o.state == st;
    } else {
      WriteOrdering(st, userId, env);
      if env.fetch.Fetched? && env.write.None? && env.save.None? {
        CacheMiss(st, userId, env);
      }
      forall id | id in o.state.records
        ensures o.state.records[id].userId == id
      {
        if id != userId {
          assert id in o.state.records - {userId};
        }
      }
      forall id | id in o.state.records && o.state.records[id].avatarBase64.Some? && AvatarFileName(id) in o.state.files
        ensures Base64.Encode(o.state.files[AvatarFileName(id)]) == o.state.records[id].avatarBase64.value
      {
        if id != userId {
          AvatarFileNameInjective(id, userId);
          assert id in o.state.records - {userId};
          assert AvatarFileName(id) in o.state.files - {AvatarFileName(userId)};
        }
      }
    }
  }

  lemma {:induction false} DeleteAvatarKeepsCoherent(st: Stores, userId: string, env: DeleteEnv)
    requires Coherent(st)
    ensures Coherent(DeleteAvatar(st, userId, env).state)
  {
    var o := DeleteAvatar(st, userId, env);
    forall id | id in o.state.records && o.state.records[id].avatarBase64.Some? && AvatarFileName(id) in o.state.files
      ensures Base64.Encode(o.state.files[AvatarFileName(id)]) == o.state.records[id].avatarBase64.value
    {
      assert id in st.records && o.state.records[id] == st.records[id];
      assert AvatarFileName(id) in st.files && o.state.files[AvatarFileName(id)] == st.files[AvatarFileName(id)];
    }
  }

  /** Any sequence of calls keeps the stores coherent. */
  lemma {:induction false} RunKeepsCoherent(svc: Service, calls: seq<Call>)
    requires Coherent(svc.stores)
    ensures Coherent(Run(svc, calls).0.stores)
    decreases |calls|
  {
    if |calls| > 0 {
      var next := Apply(svc, calls[0]).0;
      match calls[0] {
        case GetAvatarCall(userId, env) => GetAvatarKeepsCoherent(svc.stores, userId, env);
        case DeleteAvatarCall(userId, env) => DeleteAvatarKeepsCoherent(svc.stores, userId, env);
        case CreateCall(_, _) =>
      }
      RunKeepsCoherent(next, calls[1..]);
    }
  }

  // ---------------------------------------------------------------------
  // Properties of consecutive calls

  /** After a successful `getAvatar`, the next one for the same user is a
      hit: same payload, no fetch, nothing written. */
  lemma Idempotent(st: Stores, userId: string, env1: AvatarEnv, env2: AvatarEnv)
    requires GetAvatar(st, userId, env1).reply.Ok?
    requires env2.lookup.None?
    ensures var first := GetAvatar(st, userId, env1);
            GetAvatar(first.state, userId, env2) == Step(first.reply, first.state, [FindRecord(userId)])
  {
    var first := GetAvatar(st, userId, env1);
    CacheHit(first.state, userId, env2);
  }

  /** A user with no record is fetched exactly once: the first call fetches
      the avatar URL, and the second call is answered from the record. */
  lemma MissThenHit(st: Stores, userId: string, env1: AvatarEnv, env2: AvatarEnv)
    requires userId !in st.records
    requires env1.lookup.None? && env1.fetch.Fetched? && env1.write.None? && env1.save.None?
    requires env2.lookup.None?
    ensures var first := GetAvatar(st, userId, env1);
            var second := GetAvatar(first.state, userId, env2);
            && first.trace[1] == Fetch(AvatarUrl(userId))
            && second.reply == first.reply == Ok(Base64.Encode(env1.fetch.data))
            && |second.trace| == 1
  {
    CacheMiss(st, userId, env1);
    Idempotent(st, userId, env1, env2);
  }

  /** After a successful delete, neither store knows the user, so the next
      `getAvatar` asks the remote source again. */
  lemma DeleteThenMiss(st: Stores, userId: string, env1: DeleteEnv, env2: AvatarEnv)
    requires DeleteAvatar(st, userId, env1).reply.Ok?
    requires env2.lookup.None?
    ensures var after := DeleteAvatar(st, userId, env1).state;
            && userId !in after.records
            && AvatarFileName(userId) !in after.files
            && Fetch(AvatarUrl(userId)) in GetAvatar(after, userId, env2).trace
  {
    var after := DeleteAvatar(st, userId, env1).state;
    assert !IsHit(after.records, userId);
    assert GetAvatar(after, userId, env2).trace[1] == Fetch(AvatarUrl(userId));
  }

  /** Only `getAvatar` calls for one user whose record already holds a
      payload: every call is answered from the record, so the state never
      changes and the remote source is never asked. */
  lemma {:induction false} RepeatedHits(svc: Service, userId: string, calls: seq<Call>)
    requires IsHit(svc.stores.records, userId)
    requires forall i :: 0 <= i < |calls| ==> calls[i].GetAvatarCall? && calls[i].userId == userId && calls[i].avatarEnv.lookup.None?
    ensures Run(svc, calls).0 == svc
    ensures forall e :: e in Run(svc, calls).1 ==> e == FindRecord(userId)
    decreases |calls|
  {
    if |calls| > 0 {
      CacheHit(svc.stores, userId, calls[0].avatarEnv);
      RepeatedHits(svc, userId, calls[1..]);
    }
  }

  /** A user created in a run stays in the user collection to the end of the
      run, whatever fails later. */
  lemma {:induction false} CreatedUsersPersist(svc: Service, calls: seq<Call>, i: nat)
    requires i < |calls| && calls[i].CreateCall? && calls[i].createEnv.save.Assigned?
    ensures var dto := calls[i].dto;
            var saved := calls[i].createEnv.save;
            User(saved.id, dto.name, dto.job, saved.createdAt) in Run(svc, calls).0.users
    decreases i
  {
    var dto := calls[i].dto;
    var saved := calls[i].createEnv.save;
    var user := User(saved.id, dto.name, dto.job, saved.createdAt);
    var next := Apply(svc, calls[0]).0;
    if i == 0 {
      var o := Create(svc.users, dto, calls[0].createEnv);
      assert next.users == o.state;
      assert o.state[|svc.users|] == user;
      var final := Run(next, calls[1..]).0;
      assert final.users[|svc.users|] == user;
    } else {
      CreatedUsersPersist(next, calls[1..], i - 1);
    }
  }
}
