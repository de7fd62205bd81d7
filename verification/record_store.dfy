/**
  The avatar collection behind `DatabaseService`, seen as a map from user id
  to the one Avatar document stored for it, and the local avatar directory,
  seen as a map from file name to bytes.
 */
module RecordStore {
  import opened Common

  /** An Avatar document. `avatarBase64` is None while the field is
      undefined or null. */
  datatype Avatar = Avatar(userId: string, avatarBase64: Option<string>)

  type Records = map<string, Avatar>
  type Files = map<string, seq<byte>>

  /** Every document is filed under its own user id. */
  ghost predicate WellKeyed(records: Records) {
    forall id :: id in records ==> records[id].userId == id
  }

  /** `findOne({ userId })`: the document for `userId`, or None for null. */
  function FindByUserId(records: Records, userId: string): (found: Option<Avatar>)
    ensures found.Some? <==> userId in records
    ensures WellKeyed(records) && found.Some? ==> found.value.userId == userId
    // what is found is a stored document, the one filed under the id
    ensures found.Some? ==> found.value in records.Values
    ensures found.Some? ==> found.value == records[userId]
  {
    if userId in records then Some(records[userId]) else None
  }

  /** `findOneAndDelete({ userId })`: removes the document for `userId` and
      returns what was there. */
  function FindByUserIdAndDelete(records: Records, userId: string): (r: (Option<Avatar>, Records))
    ensures r.0 == FindByUserId(records, userId)
    ensures FindByUserId(r.1, userId).None?
    ensures r.0.Some? ==> r.1[userId := r.0.value] == records
    ensures r.0.None? ==> r.1 == records
    ensures forall id :: id != userId ==> FindByUserId(r.1, id) == FindByUserId(records, id)
  {
    (FindByUserId(records, userId), records - {userId})
  }

  /** `avatar.save()`: inserts the document, or replaces the one stored
      under the same user id. */
  function Save(records: Records, avatar: Avatar): (r: Records)
    ensures FindByUserId(r, avatar.userId) == Some(avatar)
    ensures forall id :: id != avatar.userId ==> FindByUserId(r, id) == FindByUserId(records, id)
    ensures WellKeyed(records) ==> WellKeyed(r)
  {
    records[avatar.userId := avatar]
  }
}
