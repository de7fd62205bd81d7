# UserService model

A Dafny model of the `UserService` of a NestJS user service, together with
the constants it depends on. The service has three operations that change
stored state:

- `getAvatar(userId)` is a read-through cache. The avatar collection holds
  an Avatar document per user with an optional base64 payload. The avatar
  directory holds a file `<userId>_avatar.jpg` with the raw bytes. On a hit
  the stored payload is returned. On a miss the image is fetched from
  `https://reqres.in/img/faces/<userId>-image.jpg` and base64-encoded. The
  bytes are written to the file, the payload is saved in the document, and
  the payload is returned. Failures are classified in a fixed order: a 404
  response, then an axios error, then anything else.
- `deleteAvatar(userId)` removes the file if it exists, then removes the
  document and returns `Avatar deleted successful!`. With no document it raises NotFound
  (`User not found`) and does not put the file back. Any other fault
  becomes `Failed to delete avatar`.
- `create(dto)` saves the user, then sends the welcome mail, then publishes
  the creation event on the `rabbit-mq-producer` pattern. Every failure
  `create` observes (a rejected save, or a mail or publish call that throws
  synchronously) reaches the caller as the one `Failed to create user.`
  exception. A saved
  user stays saved.

Every operation is a pure function. It takes the state and the behaviour of
its collaborators for that call, such as the remote fetch result or whether
the file write throws. It returns a `Step`: the reply (a value or a NestJS
exception), the new state, and the collaborator calls in the order they
were attempted.

Modules:

- `Common`: Option, bytes, thrown-error shape, HTTP exceptions, replies and
  the effect trace.
- `Base64`: the encoding of section 4 of RFC 4648 that
  `Buffer.toString('base64')` produces, with a strict decoder as its
  inverse.
- `Constants`: the message table, the URL builders and their parsers.
- `RecordStore`: the avatar collection as a map from user id to document,
  and the avatar directory as a map from file name to bytes.
- `AvatarCache`: `getAvatar` and `deleteAvatar`.
- `Provisioning`: `create`.
- `Sessions`: sequences of calls, the invariant that keeps the two avatar
  stores in agreement, and properties of consecutive calls.

Behaviour of the code worth knowing before reading the contracts:

- An empty-string payload counts as a cache hit: `getAvatar` tests only for
  `undefined` and `null` (user/user.service.ts:90-94).
- `create` never reports a distinguishable mail or publish failure. The
  inner `EMAIL_FAILED` and `RABBITMQ_FAILED` exceptions are caught by the
  outer `catch` and replaced by `USER_FAILED` (user/user.service.ts:39-57).
  `Provisioning.FailuresCollapse` states this.
- Nothing is rolled back. A failed avatar save leaves the new file in place,
  next to no stored payload, and `Sessions.Coherent` still holds. A
  `deleteAvatar` that finds no record after removing the file leaves the
  file removed; the code only notes "Rollback operations if necessary"
  there (user/user.service.ts:151).

## Model

| member | source | states |
|---|---|---|
| Base64.Encode | src/user/user.service.ts:103-104 | the payload has 4 characters for every started group of 3 bytes, uses only the base64 alphabet and `=`, and has padding only in its last two places |
| Base64.DecodeEncode | src/user/user.service.ts:103-104 | decoding the payload of any byte string gives back exactly that byte string |
| Base64.EncodeDecode | src/user/user.service.ts:103-104 | any string the strict decoder accepts is exactly the encoding of the bytes it decodes to |
| Base64.EncodeInjective | src/user/user.service.ts:103-104 | two different images never get the same stored payload |
| Constants.ErrorMessage | src/constants.ts:1-9 | each of the eight fixed texts has the length and first letter that belong to its key alone, so the text identifies the entry |
| Constants.MessagesDistinct | src/constants.ts:1-9 | the eight fixed error messages are pairwise distinct: two keys share a text exactly when they are the same key |
| Constants.SuccessMessageDistinct | src/constants.ts:16 | the success message `Avatar deleted successful!` equals none of the error messages |
| Constants.UserFetchFailed | src/constants.ts:10-11 | the message is the fixed text followed by the id, and the id can be read back from it |
| Constants.UserNotFoundWithId | src/constants.ts:12-13 | the message holds the id verbatim between the fixed prefix and suffix, and the id can be read back from it |
| Constants.IdMessagesEmbedId | src/constants.ts:10-13 | both id messages carry the id at a fixed position, and two messages are equal exactly when their ids are equal |
| Constants.UserUrl | src/constants.ts:20 | the URL is `https://reqres.in/api/users/` followed by exactly the user id |
| Constants.AvatarUrl | src/constants.ts:21-22 | the URL is `https://reqres.in/img/faces/`, then the user id, then `-image.jpg`, so it contains the user id |
| Constants.UserUrlRoundTrip | src/constants.ts:20 | parsing a user URL gives the id it was built from, and any URL that parses to an id is that id's user URL |
| Constants.AvatarUrlRoundTrip | src/constants.ts:21-22 | parsing an avatar URL gives the id it was built from, and any URL that parses to an id is that id's avatar URL |
| Constants.UrlsInjective | src/constants.ts:19-23 | two user URLs, or two avatar URLs, are equal exactly when their user ids are equal |
| RecordStore.FindByUserId | src/database/database.service.ts:14-16 | the lookup finds a document exactly when one is stored for the id, and that document carries the id |
| RecordStore.FindByUserIdAndDelete | src/database/database.service.ts:18-20 | returns what the lookup would have found; afterwards nothing is stored for the id; putting the returned document back restores the store; other ids are unaffected |
| RecordStore.Save | src/user/user.service.ts:116-118 | after saving, the lookup for the document's user id finds exactly that document, and other ids are unaffected |
| AvatarCache.AvatarFileName | src/user/user.service.ts:107 | the file name is the user id followed by `_avatar.jpg`, and the id can be read back from it |
| AvatarCache.AvatarFileNameInjective | src/user/user.service.ts:107 | two users share an avatar file name exactly when they are the same user |
| AvatarCache.Classify | src/user/user.service.ts:120-128 | a 404 response gives NotFound `Avatar image not found`; otherwise an axios error gives `Failed to fetch avatar image`; anything else gives `Unexpected error while fetching avatar` |
| AvatarCache.IsHit | src/user/user.service.ts:90-94 | a read is a hit exactly when the lookup finds a document whose payload is set; a set empty-string payload is a hit |
| AvatarCache.GetAvatar | src/user/user.service.ts:83-129 | the record store is read first; only this user's record and file change; a success leaves the returned payload stored for the user; a failure leaves the record store untouched; the only fetch is of this user's avatar URL, and only on a miss |
| AvatarCache.CacheHit | src/user/user.service.ts:85-96 | with a stored payload (an empty string included), the payload is returned unchanged with no fetch, no file write and no record write |
| AvatarCache.CacheMiss | src/user/user.service.ts:86-119 | on a miss, the avatar URL is fetched; the bytes go to `<userId>_avatar.jpg`; then the encoding is saved in the user's record and returned, in that order |
| AvatarCache.ErrorPriority | src/user/user.service.ts:83-128 | the call fails exactly when a collaborator it reaches fails, and the first such failure decides the exception by the 404 / axios / other order |
| AvatarCache.LookupThrowIsUnexpected | src/user/user.service.spec.ts:241-251 | a plain error thrown by the record lookup becomes an InternalServerError with the unexpected-error message, and nothing changes |
| AvatarCache.WriteOrdering | src/user/user.service.ts:98-118 | a failed fetch, or a file write that fails when it opens the file, leaves both stores unchanged; a failed save leaves the new file present and the record store unchanged, so the placeholder record is never persisted |
| AvatarCache.ReplyIgnoresFiles | src/user/user.service.ts:83-129 | the reply does not depend on the avatar directory: the record store alone answers reads |
| AvatarCache.DeleteAvatar | src/user/user.service.ts:131-160 | only this user's record and file can change, and only by removal; success happens exactly when a record existed and no collaborator it reached failed; success returns `Avatar deleted successful!` and leaves neither entry; the only failures are NotFound `User not found` and `Failed to delete avatar` |
| AvatarCache.DeleteSuccess | src/user/user.service.ts:131-149 | deleting an existing avatar checks the file, unlinks it only if present, removes the record and reports success, leaving neither entry |
| AvatarCache.MissingFileTolerated | src/user/user.service.ts:136-139 | when the file is absent nothing is unlinked and an unlink fault cannot surface |
| AvatarCache.DeleteWithoutRecord | src/user/user.service.ts:142-153 | with no record the call raises NotFound `User not found`, and the file removal that came first is not undone |
| AvatarCache.DeleteFaults | src/user/user.service.ts:135-159 | an unlink fault leaves everything in place; a database fault leaves the file removed and the records unchanged; both give `Failed to delete avatar` |
| Provisioning.Attempt | src/user/user.service.ts:34-54 | inside the outer try, a rejected save escapes as its own error with nothing stored; after a save, a mail throw raises `EMAIL_FAILED` and a publish throw raises `RABBITMQ_FAILED` |
| Provisioning.Create | src/user/user.service.ts:33-58 | the user is saved first; the user collection only grows, by one exactly when the save succeeded; every failure is `Failed to create user.`; a saved user stays saved after a later failure; a success returns the stored user |
| Provisioning.CreateSuccess | src/user/user.service.ts:33-54 | when all three steps succeed, the returned user carries the request's name and job and the database-assigned id and time, and the calls are save, mail, publish in that order |
| Provisioning.SideEffectOrder | src/user/user.service.ts:36-53 | mail is attempted exactly when the save succeeded, and publish exactly when the mail call also returned |
| Provisioning.EventPattern | src/user/user.service.ts:46-50 | `create` publishes at most one event, on the `rabbit-mq-producer` pattern, carrying the user's name |
| Provisioning.FailuresCollapse | src/user/user.service.ts:39-57 | create fails exactly when save, mail or publish fails, and never with the mail or publish message |
| Sessions.Apply | src/user/user.service.ts:25-161 | the avatar operations never change the user collection, create never changes the avatar stores, and users are only added |
| Sessions.Run | src/user/user.service.ts:25-161 | over any sequence of calls the user collection only grows, and a run without create leaves it unchanged |
| Sessions.GetAvatarKeepsCoherent | src/user/user.service.ts:103-118 | getAvatar keeps every document under its own id, and keeps every stored payload equal to the encoding of that user's file wherever both exist |
| Sessions.DeleteAvatarKeepsCoherent | src/user/user.service.ts:135-149 | deleteAvatar keeps the two avatar stores in that agreement |
| Sessions.RunKeepsCoherent | src/user/user.service.ts:83-160 | any sequence of calls keeps the two avatar stores in that agreement |
| Sessions.Idempotent | src/user/user.service.ts:90-118 | after a successful getAvatar, the next one for the same user returns the identical payload with no fetch and no change |
| Sessions.MissThenHit | src/user/user.service.ts:86-119 | a user with no record is fetched once; the second call is answered from the record with the same payload |
| Sessions.DeleteThenMiss | src/user/user.service.ts:131-149 | after a successful delete neither store has an entry for the user, and the next getAvatar fetches again |
| Sessions.RepeatedHits | src/user/user.service.ts:90-96 | any number of getAvatar calls for a user whose record holds a payload change nothing and make no call but the lookup |
| Sessions.CreatedUsersPersist | src/user/user.service.ts:36-57 | a user saved by some create call in a run is still in the user collection at the end of the run, whatever fails later |

## Left out

- `findById` (user/user.service.ts:60-81) is a pass-through over axios. Its empty-data branch throws a NotFoundException inside the `try`, and the `catch` then reclassifies it. The result depends on NestJS exception internals that are not part of this model. Its URL and its two messages are modelled in `Constants`.
- HTTP routing (`UserController`) and request validation (`UserDto` decorators) are left out. Validation happens before the service is called.
- Module and dependency wiring, and configuration loading, are left out: they have no behaviour.
- Mongoose is reduced to a map keyed by user id, with at most one Avatar document per user. Mongoose assigns the user id and the `createdAt` default when `new this.userModel(userDto)` builds the document, before the save (user/user.service.ts:36, user/schemas/user.schema.ts:12-13); both are inputs of `Create`. The User schema has no email field, so the stored User has none.
- `sendEmail` is `async` (mailer/mailer.service.ts:9) and `create` does not await it, so the real mailer can never throw synchronously. A failed send leaves `create` succeeding, with an unhandled promise rejection, and the `EMAIL_FAILED` branch (user/user.service.ts:42-43) cannot be reached with the real mailer. A `mail` fault in `CreateEnv` therefore models only a replaced mail service that throws synchronously, as in the service's unit test (user/user.service.spec.ts:106-108). `Provisioning.FailuresCollapse` and `Provisioning.SideEffectOrder` do not say that a failed mail delivery makes `create` fail. `RabbitMQService.send` is not part of this model either: a synchronous throw is the only way it can fail here.
- AvatarCache.WriteOrdering: a failed `fs.writeFileSync` is treated as all-or-nothing, so it leaves the avatar directory unchanged. Node opens the file with flag `w` before writing, so a fault after the open (for example ENOSPC or EIO) leaves the file created or truncated with partial bytes. The clause holds only for a write that fails at the open. `Sessions.Coherent` would hold either way, because a file is written only when no payload is stored for that user.
- The avatar directory is keyed by file name. `path.join`, `__dirname` and the normalisation of ids that contain `/` or `..` are not modelled.
- `Buffer.from(response.data, 'binary')` is taken as the identity on the fetched bytes.
- Collaborator faults are described only by the fields the `catch` blocks read: the response status and `isAxiosError`. A fault of the file system or database is assumed never to be a NestJS `NotFoundException`.
- Concurrency is left out. Calls are sequential, and racing resolves for the same user and promise timing are not modelled.
- The RabbitMQ module's transport configuration and the mailer's SMTP call are left out: they run outside the service.
