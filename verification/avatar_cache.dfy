/**
  `UserService.getAvatar` and `UserService.deleteAvatar`: a read-through
  cache over two stores. The avatar collection holds the authoritative
  base64 payload; the avatar directory holds a copy of the raw bytes in a
  file named after the user. The remote image source and the file system
  and database faults are inputs (`AvatarEnv`, `DeleteEnv`): each names
  what its collaborator does when called.
 */
module AvatarCache {
  import opened Common
  import opened Constants
  import opened RecordStore
  import Base64

  datatype Stores = Stores(records: Records, files: Files)

  // ---------------------------------------------------------------------
  // File names

  const AvatarFileSuffix: string := "_avatar.jpg"

  /** The name of the local copy of a user's avatar. */
  function AvatarFileName(userId: string): (name: string)
    ensures Unwrap("", AvatarFileSuffix, name) == Some(userId)
  {
    UnwrapWrapped("", userId, AvatarFileSuffix);
    assert "" + userId + AvatarFileSuffix == userId + AvatarFileSuffix;
    userId + AvatarFileSuffix
  }

  /** Different users never share an avatar file. */
  lemma AvatarFileNameInjective(a: string, b: string)
    ensures AvatarFileName(a) == AvatarFileName(b) <==> a == b
  {
  }

  // ---------------------------------------------------------------------
  // getAvatar

  /** What `axios.get` on the avatar URL settles to. */
  datatype FetchOutcome = Fetched(data: seq<byte>) | FetchRejected(error: Thrown)

  /** What each collaborator of `getAvatar` does if it is called: the record
      lookup throws or not, the fetch settles, the file write throws or not,
      the record save rejects or not. */
  datatype AvatarEnv = AvatarEnv(
    lookup: Option<Thrown>,
    fetch: FetchOutcome,
    write: Option<Thrown>,
    save: Option<Thrown>)

  /** The `catch` of `getAvatar`: a 404 response first, then an axios error,
      then anything else. */
  function Classify(e: Thrown): (x: HttpException)
    ensures x.NotFoundException? <==> e.responseStatus == Some(404)
    ensures x.NotFoundException? ==> x.message == ErrorMessage(AvatarNotFound)
    ensures x.InternalServerErrorException? && e.isAxiosError ==> x.message == ErrorMessage(AvatarFailed)
    ensures x.InternalServerErrorException? && !e.isAxiosError ==> x.message == ErrorMessage(AvatarError)
  {
    if e.responseStatus == Some(404) then NotFoundException(ErrorMessage(AvatarNotFound))
    else if e.isAxiosError then InternalServerErrorException(ErrorMessage(AvatarFailed))
    else InternalServerErrorException(ErrorMessage(AvatarError))
  }

  /** A stored payload answers the read. An empty string is a payload:
      `getAvatar` tests for undefined and null only. */
  predicate IsHit(records: Records, userId: string): (hit: bool)
    // a hit is exactly a found document whose payload is set, whatever it holds
    ensures hit <==> FindByUserId(records, userId).Some? && FindByUserId(records, userId).value.avatarBase64.Some?
    ensures FindByUserId(records, userId) == Some(Avatar(userId, Some(""))) ==> hit
  {
    userId in records && records[userId].avatarBase64.Some?
  }

  function GetAvatar(s: Stores, userId: string, env: AvatarEnv): (o: Step<Stores, string>)
    // the record store is always consulted first
    ensures 1 <= |o.trace| && o.trace[0] == FindRecord(userId)
    // nothing but this user's record and file can change
    ensures o.state.records - {userId} == s.records - {userId}
    ensures o.state.files - {AvatarFileName(userId)} == s.files - {AvatarFileName(userId)}
    // a success leaves the returned payload stored for the user
    ensures o.reply.Ok? ==> IsHit(o.state.records, userId) && o.state.records[userId].avatarBase64 == Some(o.reply.value)
    // a failure never touches the record store
    ensures o.reply.Raised? ==> o.state.records == s.records
    // the remote source is asked only on a miss, and only for this user's URL
    ensures forall e :: e in o.trace && e.Fetch? ==> e == Fetch(AvatarUrl(userId)) && !IsHit(s.records, userId)
  {
    var t0 := [FindRecord(userId)];
    if env.lookup.Some? then
      Step(Raised(Classify(env.lookup.value)), s, t0)
    else
      var avatar := match FindByUserId(s.records, userId)
                    case Some(a) => a
                    case None => Avatar(userId, None);
      if avatar.avatarBase64.Some? then
        Step(Ok(avatar.avatarBase64.value), s, t0)
      else
        var url := AvatarUrl(userId);
        var t1 := t0 + [Fetch(url)];
        match env.fetch
        case FetchRejected(e) => Step(Raised(Classify(e)), s, t1)
        case Fetched(data) =>
          var payload := Base64.Encode(data);
          var name := AvatarFileName(userId);
          var t2 := t1 + [WriteFile(name, data)];
          if env.write.Some? then
            Step(Raised(Classify(env.write.value)), s, t2)
          else
            var written := s.(files := s.files[name := data]);
            var t3 := t2 + [SaveRecord(userId, payload)];
            if env.save.Some? then
              Step(Raised(Classify(env.save.value)), written, t3)
            else
              Step(Ok(payload), written.(records := Save(s.records, avatar.(avatarBase64 := Some(payload), userId := userId))), t3)
  }

  /** The collaborator fault that ends a `getAvatar` call, if any: the lookup
      fault, or on a miss the first of fetch, file write and save to fail. */
  function FirstFault(s: Stores, userId: string, env: AvatarEnv): Option<Thrown> {
    if env.lookup.Some? then env.lookup
    else if IsHit(s.records, userId) then None
    else if env.fetch.FetchRejected? then Some(env.fetch.error)
    else if env.write.Some? then env.write
    else env.save
  }

  /** Cache hit: the stored payload is returned as is, with no fetch, no
      file write and no record write. */
  lemma CacheHit(s: Stores, userId: string, env: AvatarEnv)
    requires env.lookup.None? && IsHit(s.records, userId)
    ensures GetAvatar(s, userId, env) == Step(Ok(s.records[userId].avatarBase64.value), s, [FindRecord(userId)])
  {
  }

  /** Cache miss: the avatar URL is fetched, the bytes are written to the
      user's file and then their encoding is saved in the user's record and
      returned. */
  lemma CacheMiss(s: Stores, userId: string, env: AvatarEnv)
    requires env.lookup.None? && !IsHit(s.records, userId)
    requires env.fetch.Fetched? && env.write.None? && env.save.None?
    ensures var data := env.fetch.data;
            var payload := Base64.Encode(data);
            var o := GetAvatar(s, userId, env);
            && o.reply == Ok(payload)
            && o.state.records == s.records[userId := Avatar(userId, Some(payload))]
            && o.state.files == s.files[AvatarFileName(userId) := data]
            && o.trace == [FindRecord(userId), Fetch(AvatarUrl(userId)),
                           WriteFile(AvatarFileName(userId), data), SaveRecord(userId, payload)]
  {
  }

  /** A call fails exactly when some collaborator it reaches fails, and the
      first such failure decides the exception by the 404 / axios / other
      priority. */
  lemma ErrorPriority(s: Stores, userId: string, env: AvatarEnv)
    ensures var o := GetAvatar(s, userId, env);
            && (o.reply.Raised? <==> FirstFault(s, userId, env).Some?)
            && (o.reply.Raised? ==> o.reply.exception == Classify(FirstFault(s, userId, env).value))
  {
  }

  /** A thrown record lookup with no response and no axios flag, as in the
      service's unit test, is reported as the unexpected-error case. */
  lemma LookupThrowIsUnexpected(s: Stores, userId: string, env: AvatarEnv)
    requires env.lookup == Some(PlainError())
    ensures GetAvatar(s, userId, env) ==
            Step(Raised(InternalServerErrorException(ErrorMessage(AvatarError))), s, [FindRecord(userId)])
  {
  }

  /** The file is written before the record is saved: a failed fetch or file
      write leaves both stores as they were, while a failed save leaves the
      new file in place next to the unchanged record store. */
  lemma WriteOrdering(s: Stores, userId: string, env: AvatarEnv)
    requires env.lookup.None? && !IsHit(s.records, userId)
    ensures env.fetch.FetchRejected? || env.write.Some? ==> GetAvatar(s, userId, env).state == s
    ensures env.fetch.Fetched? && env.write.None? && env.save.Some? ==>
              GetAvatar(s, userId, env).state == Stores(s.records, s.files[AvatarFileName(userId) := env.fetch.data])
  {
  }

  /** The reply depends on the record store only: the avatar directory is
      never read to answer a request. */
  lemma ReplyIgnoresFiles(s: Stores, files: Files, userId: string, env: AvatarEnv)
    ensures GetAvatar(s, userId, env).reply == GetAvatar(s.(files := files), userId, env).reply
  {
  }

  // ---------------------------------------------------------------------
  // deleteAvatar

  /** What the collaborators of `deleteAvatar` do if called: `unlinkSync`
      throws or not, `findByUserIdAndDelete` throws or not. Neither can throw
      a NestJS `NotFoundException`. */
  datatype DeleteEnv = DeleteEnv(unlink: Option<Thrown>, remove: Option<Thrown>)

  function DeleteAvatar(s: Stores, userId: string, env: DeleteEnv): (o: Step<Stores, string>)
    // only this user's record and file can change, and only by removal
    ensures o.state.records == s.records || o.state.records == s.records - {userId}
    ensures o.state.files == s.files || o.state.files == s.files - {AvatarFileName(userId)}
    // success: the record existed and both stores have forgotten the user
    ensures o.reply.Ok? <==> userId in s.records && env.remove.None? && (AvatarFileName(userId) in s.files ==> env.unlink.None?)
    ensures o.reply.Ok? ==> o.reply.value == DeletedSuccessful && userId !in o.state.records && AvatarFileName(userId) !in o.state.files
    // the two failures and their messages
    ensures o.reply.Raised? ==> o.reply.exception in {NotFoundException(ErrorMessage(UserNotFound)), InternalServerErrorException(ErrorMessage(AvatarNotDeleted))}
    // the record store is consulted only after the file is gone
    ensures DeleteRecord(userId) in o.trace ==> AvatarFileName(userId) !in o.state.files
  {
    var name := AvatarFileName(userId);
    var t0 := [FileExists(name)];
    var failed := Raised(InternalServerErrorException(ErrorMessage(AvatarNotDeleted)));
    if name in s.files && env.unlink.Some? then
      Step(failed, s, t0 + [Unlink(name)])
    else
      var t1 := if name in s.files then t0 + [Unlink(name)] else t0;
      var unlinked := s.(files := s.files - {name});
      var t2 := t1 + [DeleteRecord(userId)];
      if env.remove.Some? then
        Step(failed, unlinked, t2)
      else
        var (prior, rest) := FindByUserIdAndDelete(s.records, userId);
        if prior.None? then
          Step(Raised(NotFoundException(ErrorMessage(UserNotFound))), unlinked.(records := rest), t2)
        else
          Step(Ok(DeletedSuccessful), unlinked.(records := rest), t2)
  }

  /** Deleting an existing avatar removes the file if present, then the
      record, and reports success. */
  lemma DeleteSuccess(s: Stores, userId: string, env: DeleteEnv)
    requires userId in s.records && env.unlink.None? && env.remove.None?
    ensures var o := DeleteAvatar(s, userId, env);
            && o.reply == Ok(DeletedSuccessful)
            && o.state == Stores(s.records - {userId}, s.files - {AvatarFileName(userId)})
            && o.trace == [FileExists(AvatarFileName(userId))]
                          + (if AvatarFileName(userId) in s.files then [Unlink(AvatarFileName(userId))] else [])
                          + [DeleteRecord(userId)]
  {
  }

  /** A missing file is not an error: nothing is unlinked and an unlink fault
      never surfaces. */
  lemma MissingFileTolerated(s: Stores, userId: string, env: DeleteEnv)
    requires AvatarFileName(userId) !in s.files
    ensures Unlink(AvatarFileName(userId)) !in DeleteAvatar(s, userId, env).trace
    ensures DeleteAvatar(s, userId, env) == DeleteAvatar(s, userId, env.(unlink := None))
  {
  }

  /** With no record, the call reports NotFound, yet the file removal that
      came first is not undone. */
  lemma DeleteWithoutRecord(s: Stores, userId: string, env: DeleteEnv)
    requires userId !in s.records && env.remove.None?
    requires AvatarFileName(userId) in s.files ==> env.unlink.None?
    ensures var o := DeleteAvatar(s, userId, env);
            && o.reply == Raised(NotFoundException(ErrorMessage(UserNotFound)))
            && o.state == Stores(s.records, s.files - {AvatarFileName(userId)})
  {
  }

  /** Collaborator faults become `AVATAR_NOT_DELETED`: an unlink fault leaves
      everything in place, a database fault leaves the file removed. */
  lemma DeleteFaults(s: Stores, userId: string, env: DeleteEnv)
    ensures var name := AvatarFileName(userId);
            name in s.files && env.unlink.Some? ==>
              DeleteAvatar(s, userId, env) ==
              Step(Raised(InternalServerErrorException(ErrorMessage(AvatarNotDeleted))), s, [FileExists(name), Unlink(name)])
    ensures var name := AvatarFileName(userId);
            var o := DeleteAvatar(s, userId, env);
            (name in s.files ==> env.unlink.None?) && env.remove.Some? ==>
              && o.reply == Raised(InternalServerErrorException(ErrorMessage(AvatarNotDeleted)))
              && o.state == Stores(s.records, s.files - {name})
  {
  }
}
