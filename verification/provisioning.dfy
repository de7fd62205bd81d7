/**
  `UserService.create`: save the user, then send the welcome mail, then
  publish the creation event. The inner `try` blocks turn a mail or publish
  throw into their own exceptions, but the outer `catch` replaces every
  exception with `USER_FAILED`, so that is the only failure a caller sees.
  Nothing is rolled back: a saved user stays saved.
 */
module Provisioning {
  import opened Common
  import opened Constants

  /** The validated request body. */
  datatype UserDto = UserDto(email: string, name: string, job: string)

  /** A stored User document. The schema has no email field, so the email of
      the request is not persisted; Mongoose assigns the id and the creation
      time when it builds the document, before the save. */
  datatype User = User(id: string, name: string, job: string, createdAt: int)

  /** What `createdUser.save()` settles to: the stored document, with the id
      and creation time Mongoose assigned, or a rejection. */
  datatype SaveOutcome = Assigned(id: string, createdAt: int) | SaveRejected(error: Thrown)

  /** What each collaborator of `create` does if it is called. `mail` and
      `publish` are synchronous throws only: `sendEmail` is not awaited. */
  datatype CreateEnv = CreateEnv(save: SaveOutcome, mail: Option<Thrown>, publish: Option<Thrown>)

  /** How the body of the outer `try` ends: it returns the saved user, the
      rejected `save()` propagates its own error, or one of the two inner
      `catch` blocks raises its exception. */
  datatype Escape = Returned(user: User) | SaveThrew(error: Thrown) | InnerRaised(exception: HttpException)

  /** The outer `try` body: how it ends, the user collection afterwards and
      the calls it made. */
  datatype Trial = Trial(escape: Escape, state: seq<User>, trace: seq<Effect>)

  /** The body of the outer `try`, with the exceptions of the two inner
      `catch` blocks. */
  function Attempt(users: seq<User>, dto: UserDto, env: CreateEnv): (o: Trial)
    // a rejected save escapes as its own error, before anything is stored
    ensures o.escape.SaveThrew? <==> env.save.SaveRejected?
    ensures env.save.SaveRejected? ==> o.escape.error == env.save.error && o.state == users
    // the inner catches raise only InternalServerErrorExceptions
    ensures o.escape.InnerRaised? ==> o.escape.exception.InternalServerErrorException?
    ensures env.save.Assigned? && env.mail.Some? ==> o.escape == InnerRaised(InternalServerErrorException(ErrorMessage(EmailFailed)))
    ensures env.save.Assigned? && env.mail.None? && env.publish.Some? ==>
              o.escape == InnerRaised(InternalServerErrorException(ErrorMessage(RabbitMqFailed)))
  {
    var t0 := [SaveUser(dto.name, dto.job)];
    match env.save
    case SaveRejected(e) => Trial(SaveThrew(e), users, t0)
    case Assigned(id, createdAt) =>
      var saved := User(id, dto.name, dto.job, createdAt);
      var stored := users + [saved];
      var t1 := t0 + [SendMail(dto.email, dto.name)];
      if env.mail.Some? then
        Trial(InnerRaised(InternalServerErrorException(ErrorMessage(EmailFailed))), stored, t1)
      else
        var t2 := t1 + [Publish(ProducerPattern, dto.name)];
        if env.publish.Some? then
          Trial(InnerRaised(InternalServerErrorException(ErrorMessage(RabbitMqFailed))), stored, t2)
        else
          Trial(Returned(saved), stored, t2)
  }

  /** The outer `catch`: whatever escapes the body becomes `USER_FAILED`. */
  function Create(users: seq<User>, dto: UserDto, env: CreateEnv): (o: Step<seq<User>, User>)
    // the user is saved first, and only once
    ensures 1 <= |o.trace| && o.trace[0] == SaveUser(dto.name, dto.job)
    ensures |o.state| == |users| || |o.state| == |users| + 1
    ensures o.state[..|users|] == users
    // one failure message, whatever failed
    ensures o.reply.Raised? ==> o.reply.exception == InternalServerErrorException(ErrorMessage(UserFailed))
    // a saved user stays saved, even when a later step fails
    ensures env.save.Assigned? <==> |o.state| == |users| + 1
    ensures env.save.Assigned? ==> o.state[|users|] == User(env.save.id, dto.name, dto.job, env.save.createdAt)
    // the returned user is the stored one
    ensures o.reply.Ok? ==> o.state == users + [o.reply.value]
  {
    var inner := Attempt(users, dto, env);
    match inner.escape
    case Returned(user) => Step(Ok(user), inner.state, inner.trace)
    case _ => Step(Raised(InternalServerErrorException(ErrorMessage(UserFailed))), inner.state, inner.trace)
  }

  /** Full success: save, mail, publish in that order, and the saved user
      (with the request's name and job) is returned. */
  lemma CreateSuccess(users: seq<User>, dto: UserDto, env: CreateEnv)
    requires env.save.Assigned? && env.mail.None? && env.publish.None?
    ensures var o := Create(users, dto, env);
            var user := User(env.save.id, dto.name, dto.job, env.save.createdAt);
            && o.reply == Ok(user)
            && o.state == users + [user]
            && o.trace == [SaveUser(dto.name, dto.job), SendMail(dto.email, dto.name), Publish(ProducerPattern, dto.name)]
  {
  }

  /** Publishing is attempted only when the mail call returned, and mailing
      only when the save succeeded. */
  lemma SideEffectOrder(users: seq<User>, dto: UserDto, env: CreateEnv)
    ensures var o := Create(users, dto, env);
            && (SendMail(dto.email, dto.name) in o.trace <==> env.save.Assigned?)
            && (Publish(ProducerPattern, dto.name) in o.trace <==> env.save.Assigned? && env.mail.None?)
  {
    var o := Create(users, dto, env);
    if env.save.SaveRejected? {
      assert o.trace == [SaveUser(dto.name, dto.job)];
    } else if env.mail.Some? {
      assert o.trace == [SaveUser(dto.name, dto.job), SendMail(dto.email, dto.name)];
    }
  }

  /** The create call fails exactly when one of its three steps fails, and
      the failure is the same `USER_FAILED` exception in every case: the
      mail and publish messages never reach the caller. */
  lemma FailuresCollapse(users: seq<User>, dto: UserDto, env: CreateEnv)
    ensures var o := Create(users, dto, env);
            && (o.reply.Raised? <==> env.save.SaveRejected? || env.mail.Some? || env.publish.Some?)
            && o.reply != Raised(InternalServerErrorException(ErrorMessage(EmailFailed)))
            && o.reply != Raised(InternalServerErrorException(ErrorMessage(RabbitMqFailed)))
  {
    MessagesDistinct(UserFailed, EmailFailed);
    MessagesDistinct(UserFailed, RabbitMqFailed);
  }

  /** The only event `create` publishes goes to the `rabbit-mq-producer`
      pattern and carries the new user's name, and it is published at most
      once. */
  lemma EventPattern(users: seq<User>, dto: UserDto, env: CreateEnv)
    ensures var o := Create(users, dto, env);
            && (forall e :: e in o.trace && e.Publish? ==> e == Publish(ProducerPattern, dto.name))
            && (forall i, j :: 0 <= i < j < |o.trace| && o.trace[i].Publish? ==> !o.trace[j].Publish?)
  {
  }
}
