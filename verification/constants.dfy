/**
  The fixed strings of the service: the error-message table, the success
  message, the two URL builders of the reqres.in API and the RabbitMQ
  message pattern. Every id-parameterised string is the id placed between a
  fixed prefix and a fixed suffix, so each builder comes with a parser that
  recovers the id.
 */
module Constants {
  import opened Common

  /** The keys of the fixed entries of the error-message table. */
  datatype MessageKey =
    | EmailFailed
    | RabbitMqFailed
    | UserFailed
    | UserNotFound
    | AvatarError
    | AvatarFailed
    | AvatarNotFound
    | AvatarNotDeleted

  /** The text of each fixed entry. Its length and first character are those
      `Shape` gives the key, and no two keys share a shape, so the text alone
      tells which entry it is. */
  function ErrorMessage(key: MessageKey): (m: string)
    ensures |m| == Shape(key).0 && m[0] == Shape(key).1
  {
    match key
    case EmailFailed => "Failed to send welcome email."
    case RabbitMqFailed => "Failed to publish user creation event."
    case UserFailed => "Failed to create user."
    case UserNotFound => "User not found"
    case AvatarError => "Unexpected error while fetching avatar"
    case AvatarFailed => "Failed to fetch avatar image"
    case AvatarNotFound => "Avatar image not found"
    case AvatarNotDeleted => "Failed to delete avatar"
  }

  const DeletedSuccessful: string := "Avatar deleted successful!"

  const ProducerPattern: string := "rabbit-mq-producer"

  /** Length and first character of each fixed message; no two agree. */
  function Shape(key: MessageKey): (int, char) {
    match key
    case EmailFailed => (29, 'F')
    case RabbitMqFailed => (38, 'F')
    case UserFailed => (22, 'F')
    case UserNotFound => (14, 'U')
    case AvatarError => (38, 'U')
    case AvatarFailed => (28, 'F')
    case AvatarNotFound => (22, 'A')
    case AvatarNotDeleted => (23, 'F')
  }

  /** Each fixed message is its own: the table never gives two keys the same
      text. */
  lemma MessagesDistinct(a: MessageKey, b: MessageKey)
    ensures ErrorMessage(a) == ErrorMessage(b) <==> a == b
  {
    if ErrorMessage(a) == ErrorMessage(b) {
      ShapeInjective(a, b);
    }
  }

  /** The success message (26 characters) is none of the error messages. */
  lemma SuccessMessageDistinct(key: MessageKey)
    ensures ErrorMessage(key) != DeletedSuccessful
  {
    assert |DeletedSuccessful| == 26;
  }

  lemma ShapeInjective(a: MessageKey, b: MessageKey)
    requires Shape(a) == Shape(b)
    ensures a == b
  {
  }

  // ---------------------------------------------------------------------
  // Templates: an id between a fixed prefix and a fixed suffix

  /** The id embedded in `s` between `prefix` and `suffix`, if `s` has that shape. */
  function Unwrap(prefix: string, suffix: string, s: string): (id: Option<string>)
    ensures id.Some? <==> |prefix| + |suffix| <= |s| && s[..|prefix|] == prefix && s[|s| - |suffix|..] == suffix
    ensures id.Some? ==> prefix + id.value + suffix == s
  {
    if |prefix| + |suffix| <= |s| && s[..|prefix|] == prefix && s[|s| - |suffix|..] == suffix then
      var id := s[|prefix|..|s| - |suffix|];
      assert s == s[..|prefix|] + id + s[|s| - |suffix|..];
      Some(id)
    else
      None
  }

  /** Unwrapping a wrapped id gives the id back. */
  lemma UnwrapWrapped(prefix: string, id: string, suffix: string)
    ensures Unwrap(prefix, suffix, prefix + id + suffix) == Some(id)
  {
    var s := prefix + id + suffix;
    assert s[..|prefix|] == prefix;
    assert s[|s| - |suffix|..] == suffix;
    assert s[|prefix|..|s| - |suffix|] == id;
  }

  /** Wrapping between a fixed prefix and suffix is injective in the id. */
  lemma WrapInjective(prefix: string, a: string, b: string, suffix: string)
    requires prefix + a + suffix == prefix + b + suffix
    ensures a == b
  {
    UnwrapWrapped(prefix, a, suffix);
    UnwrapWrapped(prefix, b, suffix);
  }

  // ---------------------------------------------------------------------
  // Id-parameterised messages

  const FetchFailedPrefix: string := "Failed to fetch user with ID "
  const NotFoundWithIdPrefix: string := "User with ID "
  const NotFoundWithIdSuffix: string := " not found."

  function UserFetchFailed(userId: string): (msg: string)
    ensures Unwrap(FetchFailedPrefix, "", msg) == Some(userId)
  {
    UnwrapWrapped(FetchFailedPrefix, userId, "");
    assert FetchFailedPrefix + userId + "" == FetchFailedPrefix + userId;
    FetchFailedPrefix + userId
  }

  function UserNotFoundWithId(userId: string): (msg: string)
    ensures Unwrap(NotFoundWithIdPrefix, NotFoundWithIdSuffix, msg) == Some(userId)
  {
    UnwrapWrapped(NotFoundWithIdPrefix, userId, NotFoundWithIdSuffix);
    NotFoundWithIdPrefix + userId + NotFoundWithIdSuffix
  }

  /** Both id messages carry the id verbatim, and different ids give
      different messages. */
  lemma IdMessagesEmbedId(a: string, b: string)
    ensures UserFetchFailed(a)[..|FetchFailedPrefix|] == FetchFailedPrefix
    ensures UserFetchFailed(a)[|FetchFailedPrefix|..] == a
    ensures UserNotFoundWithId(a)[|NotFoundWithIdPrefix|..|NotFoundWithIdPrefix| + |a|] == a
    ensures UserFetchFailed(a) == UserFetchFailed(b) <==> a == b
    ensures UserNotFoundWithId(a) == UserNotFoundWithId(b) <==> a == b
  {
    var m := UserNotFoundWithId(a);
    assert m[|NotFoundWithIdPrefix|..|NotFoundWithIdPrefix| + |a|] == a;
    if UserFetchFailed(a) == UserFetchFailed(b) {
      WrapInjective(FetchFailedPrefix, a, b, "");
    }
    if UserNotFoundWithId(a) == UserNotFoundWithId(b) {
      WrapInjective(NotFoundWithIdPrefix, a, b, NotFoundWithIdSuffix);
    }
  }

  // ---------------------------------------------------------------------
  // URLs of the reqres.in API

  const UserUrlPrefix: string := "https://reqres.in/api/users/"
  const AvatarUrlPrefix: string := "https://reqres.in/img/faces/"
  const AvatarUrlSuffix: string := "-image.jpg"

  function UserUrl(userId: string): (url: string)
    ensures |url| == |UserUrlPrefix| + |userId|
    ensures url[..|UserUrlPrefix|] == UserUrlPrefix
    ensures url[|UserUrlPrefix|..] == userId
  {
    UserUrlPrefix + userId
  }

  function AvatarUrl(userId: string): (url: string)
    ensures |url| == |AvatarUrlPrefix| + |userId| + |AvatarUrlSuffix|
    ensures url[..|AvatarUrlPrefix|] == AvatarUrlPrefix
    ensures url[|AvatarUrlPrefix|..|url| - |AvatarUrlSuffix|] == userId
    ensures url[|url| - |AvatarUrlSuffix|..] == AvatarUrlSuffix
  {
    var url := AvatarUrlPrefix + userId + AvatarUrlSuffix;
    assert url[|AvatarUrlPrefix|..|url| - |AvatarUrlSuffix|] == userId;
    url
  }

  /** The user id a user URL was built from, if it is one. */
  function ParseUserUrl(url: string): Option<string> {
    Unwrap(UserUrlPrefix, "", url)
  }

  /** The user id an avatar URL was built from, if it is one. */
  function ParseAvatarUrl(url: string): Option<string> {
    Unwrap(AvatarUrlPrefix, AvatarUrlSuffix, url)
  }

  /** `ParseUserUrl` inverts `UserUrl`, in both directions. */
  lemma UserUrlRoundTrip(userId: string, url: string)
    ensures ParseUserUrl(UserUrl(userId)) == Some(userId)
    ensures ParseUserUrl(url) == Some(userId) ==> UserUrl(userId) == url
  {
    UnwrapWrapped(UserUrlPrefix, userId, "");
    assert UserUrlPrefix + userId + "" == UserUrl(userId);
    if ParseUserUrl(url) == Some(userId) {
      assert UserUrlPrefix + userId + "" == url;
    }
  }

  /** `ParseAvatarUrl` inverts `AvatarUrl`, in both directions. */
  lemma AvatarUrlRoundTrip(userId: string, url: string)
    ensures ParseAvatarUrl(AvatarUrl(userId)) == Some(userId)
    ensures ParseAvatarUrl(url) == Some(userId) ==> AvatarUrl(userId) == url
  {
    UnwrapWrapped(AvatarUrlPrefix, userId, AvatarUrlSuffix);
  }

  /** Different users never share a URL. */
  lemma UrlsInjective(a: string, b: string)
    ensures UserUrl(a) == UserUrl(b) <==> a == b
    ensures AvatarUrl(a) == AvatarUrl(b) <==> a == b
  {
    UserUrlRoundTrip(a, UserUrl(b));
    AvatarUrlRoundTrip(a, AvatarUrl(b));
  }
}
