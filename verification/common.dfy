/**
  Shared vocabulary of the user service model: optional values, bytes, the
  JavaScript error values a `catch` block inspects, the two NestJS HTTP
  exceptions the service raises, and the trace of collaborator calls that
  every operation reports alongside its new state.
 */
module Common {

  datatype Option<+T> = None | Some(value: T)

  /** One octet of a Node.js `Buffer`. */
  type byte = x: int | 0 <= x < 256

  /** The parts of a thrown JavaScript value that the service's `catch`
      blocks look at: the HTTP status of `error.response` (None when the
      error carries no response) and the `error.isAxiosError` flag. */
  datatype Thrown = Thrown(responseStatus: Option<int>, isAxiosError: bool)

  /** A plain error with neither a response nor the axios flag, as thrown by
      the file system or the database driver. */
  function PlainError(): (e: Thrown)
    ensures e.responseStatus.None? && !e.isAxiosError
  {
    Thrown(None, false)
  }

  /** The two NestJS exceptions the service raises. */
  datatype HttpException =
    | NotFoundException(message: string)
    | InternalServerErrorException(message: string)

  /** What an `async` service method settles to: a value or a rejection. */
  datatype Reply<+T> = Ok(value: T) | Raised(exception: HttpException)

  /** A call the service makes on a collaborator, in the order it makes it.
      A call is recorded when it is attempted, whether or not it throws. */
  datatype Effect =
    | FindRecord(userId: string)                       // databaseService.findByUserId
    | Fetch(url: string)                               // axios.get
    | WriteFile(fileName: string, data: seq<byte>)     // fs.writeFileSync
    | SaveRecord(userId: string, payload: string)      // avatar.save()
    | FileExists(fileName: string)                     // fs.existsSync
    | Unlink(fileName: string)                         // fs.unlinkSync
    | DeleteRecord(userId: string)                     // databaseService.findByUserIdAndDelete
    | SaveUser(name: string, job: string)              // createdUser.save()
    | SendMail(to: string, name: string)               // mailService.sendEmail
    | Publish(pattern: string, message: string)        // rabbitMQService.send

  /** The result of one service call: the reply, the state afterwards and
      the collaborator calls made on the way. */
  datatype Step<S, +T> = Step(reply: Reply<T>, state: S, trace: seq<Effect>)
}
