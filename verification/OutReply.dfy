/** What a module returns for a request: nothing, a reply, or the promise of one. */
module OutReply {
  import opened Types
  import opened Messaging
  import S = Service

  datatype ReplyType = ImmediateReply | FutureReply | NoReply

  /** The message of a reply that has none. */
  const EMPTY_MESSAGE := Msg([], [])

  class ZmfOutReply {
    const kind: ReplyType
    const immediate: Msg
    var finished: bool
    /** What a promised reply is sent with, once the dispatcher has handed it in. */
    var service: ZmqService?
    var requestId: Option<S.ExtId>

    constructor None()
      ensures kind == NoReply && finished && service == null
    {
      kind, immediate, finished, service, requestId := NoReply, EMPTY_MESSAGE, true, null, Option.None;
    }

    constructor Immediate(msg: Msg)
      ensures kind == ImmediateReply && immediate == msg && finished && service == null
    {
      kind, immediate, finished, service, requestId := ImmediateReply, msg, true, null, Option.None;
    }

    constructor Future()
      ensures kind == FutureReply && !finished && service == null
    {
      kind, immediate, finished, service, requestId := FutureReply, EMPTY_MESSAGE, false, null, Option.None;
    }

    /** Takes over the type and whether the reply is finished, but neither the message nor the service. */
    constructor Moved(other: ZmfOutReply)
      ensures kind == other.kind && finished == other.finished
      ensures immediate == Msg([], []) && service == null && requestId == Option.None
    {
      kind, finished := other.kind, other.finished;
      immediate, service, requestId := EMPTY_MESSAGE, null, Option.None;
    }

    /** What is sent for a request as soon as the module returns. */
    function AtOnce(): Option<Msg> {
      if kind == ImmediateReply then Some(immediate) else Option.None
    }

    method InjectService(service: ZmqService, requestId: S.ExtId)
      modifies this`service, this`requestId
      ensures this.service == service && this.requestId == Some(requestId)
    {
      this.service, this.requestId := service, Some(requestId);
    }

    /** Sends the promised reply, once. Without a service the caller waits and nothing is done; over one that is not alive
        sending fails and the promise stays. */
    method SendFutureReply(msg: Msg) returns (waits: bool)
      requires service != null ==> requestId.Some?
      modifies this`finished, service
      ensures waits == (!old(finished) && service == null)
      ensures finished == (old(finished) || (service != null && old(service.alive)))
      ensures service != null ==>
                service.Abs() == if old(finished) then old(service.Abs())
                                 else S.Step(old(service.Abs()), S.Answer(requestId.value, msg))
    {
      waits := false;
      if finished { return; }
      if service == null { return true; }
      var ok := service.SendReply(requestId.value, msg);
      if ok {
        finished := true;
      }
    }
  }

  /** A module that keeps the promise it made and returns another object, moved from it, waits for ever to send it: the
      dispatcher hands the service in to the object that was returned. */
  method PromiseLostByMoving(service: ZmqService, ext: S.ExtId, msg: Msg) returns (waits: bool)
    ensures waits
  {
    var kept := new ZmfOutReply.Future();
    var returned := new ZmfOutReply.Moved(kept);
    returned.InjectService(service, ext);
    waits := kept.SendFutureReply(msg);
  }
}
