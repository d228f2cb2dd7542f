/** One channel type over three transports: `src/channel/sender.rs` and `src/channel/receiver.rs`. */
module Channels {
  import opened Basics

  /** What travels through the channel: `send` wraps an item, `send_err` an error. */
  datatype Message<T> = Item(item: T) | Failure(error: nat)

  datatype Transport = Unbounded | Bounded(capacity: nat) | Oneshot

  datatype SendError = ChannelClosed | ChannelFull

  datatype SendResult = Sent | Refused(error: SendError) | Waiting

  /** `Ok(Some(item))`, `Err(err)`, `Ok(None)`, or not ready yet. */
  datatype RecvResult<T> = Received(item: T) | ReceivedErr(error: nat) | NoMessage | Pending

  function Delivered<T>(m: Message<T>): RecvResult<T> {
    match m case Item(x) => Received(x) case Failure(e) => ReceivedErr(e)
  }

  /** Where the inner oneshot receiver is: in the `Option`, taken by a `recv` in progress, or dropped. */
  datatype Place = InOption | InFuture | Gone

  /** What the tasks that share a channel can do to it. */
  datatype Action<T> =
    | Clone | Release                                         // a clone of the sender
    | Send(message: Message<T>, contended: bool)
    | SendLater(message: Message<T>, contended: bool)
    | TryReceive | Receive | GiveUp | Await | Close           // the receiver

  /** What the receiver's callers are told about these messages. */
  function Outcomes<T>(ms: seq<Message<T>>): (r: seq<RecvResult<T>>)
    ensures |r| == |ms|
    ensures forall i | 0 <= i < |ms| && ms[i].Item? :: r[i] == Received(ms[i].item)
    ensures forall i | 0 <= i < |ms| && ms[i].Failure? :: r[i] == ReceivedErr(ms[i].error)
  {
    seq(|ms|, i requires 0 <= i < |ms| => Delivered(ms[i]))
  }

  class Channel<T> {
    const transport: Transport
    var queue: seq<Message<T>>    // sent and not received; for the oneshot, the value in its cell
    var senders: nat              // clones of the sender
    var receiving: bool           // the receiver exists; for the oneshot, its inner receiver
    var sender: bool              // oneshot: the inner sender is still in the shared `Option`
    var place: Place              // oneshot: the inner receiver
    var completed: bool           // oneshot: the inner receiver has been ready once
    ghost var accepted: seq<Message<T>>
    ghost var received: seq<Message<T>>

    /** Conservation, for every transport and whatever the clones of the sender do. */
    ghost predicate Balanced()
      reads this
    {
      && (transport.Bounded? ==> |queue| <= transport.capacity)
      && received <= accepted
      && (receiving ==> received + queue == accepted)
      && (!receiving ==> queue == [])
      && (transport.Oneshot? ==>
            && |accepted| <= 1 && (sender ==> accepted == [])
            && receiving == !place.Gone?
            && (senders == 0 ==> !sender)
            && (!place.Gone? ==> received == []))
    }

    ghost predicate Valid()
      reads this
    {
      Balanced() && (transport.Oneshot? && !place.Gone? ==> !completed)
    }

    constructor (transport: Transport)
      requires transport.Bounded? ==> transport.capacity > 0
      ensures Valid() && this.transport == transport && accepted == [] && received == [] && receiving && senders == 1
      ensures transport.Oneshot? ==> sender && place == InOption
    {
      this.transport := transport;
      queue, senders, receiving, sender, place := [], 1, true, transport.Oneshot?, InOption;
      completed, accepted, received := false, [], [];
    }

    /** `Clone for Sender`: all clones share one inner sender. */
    method CloneSender()
      requires Valid() && senders > 0
      modifies this`senders
      ensures Valid() && senders == old(senders) + 1
    {
      senders := senders + 1;
    }

    /** A sender is dropped; the inner oneshot sender goes with the last clone. */
    method DropSender()
      requires Valid() && senders > 0
      modifies this`senders, this`sender
      ensures Valid() && senders == old(senders) - 1
      ensures sender == (old(sender) && senders > 0)
    {
      senders := senders - 1;
      if senders == 0 { sender := false; }
    }

    /**
     * `send_raw_sync`. The lock around the inner oneshot sender is only tried: while another clone
     * holds it, in `closed` or `is_closed`, the message is refused and the sender stays.
     */
    method SendSync(m: Message<T>, contended: bool) returns (r: SendResult)
      requires Valid() && senders > 0
      modifies this`queue, this`sender, this`accepted
      ensures Valid()
      ensures r.Sent? <==> receiving && match transport
                                        case Unbounded => true
                                        case Bounded(n) => |old(queue)| < n
                                        case Oneshot => !contended && old(sender)
      ensures r.Sent? ==> queue == old(queue) + [m] && accepted == old(accepted) + [m]
      ensures !r.Sent? ==> queue == old(queue) && accepted == old(accepted)
      ensures r == Refused(ChannelFull) <==> transport.Bounded? && receiving && |old(queue)| >= transport.capacity
      ensures !r.Waiting?
      ensures transport.Oneshot? ==> sender == (contended && old(sender))
    {
      match transport {
        case Unbounded =>
          if !receiving { return Refused(ChannelClosed); }
        case Bounded(n) =>
          if !receiving { return Refused(ChannelClosed); }
          if |queue| >= n { return Refused(ChannelFull); }
        case Oneshot =>
          if contended || !sender { return Refused(ChannelClosed); }
          sender := false;
          if !receiving { return Refused(ChannelClosed); }
      }
      queue := queue + [m];
      accepted := accepted + [m];
      return Sent;
    }

    /** One poll of `send_raw_async`: a bounded channel waits for room instead of refusing. */
    method SendAsync(m: Message<T>, contended: bool) returns (r: SendResult)
      requires Valid() && senders > 0
      modifies this`queue, this`sender, this`accepted
      ensures Valid()
      ensures r.Waiting? <==> transport.Bounded? && receiving && |old(queue)| >= transport.capacity
      ensures r.Sent? ==> queue == old(queue) + [m] && accepted == old(accepted) + [m]
      ensures !r.Sent? ==> queue == old(queue) && accepted == old(accepted)
      ensures r.Refused? ==> r.error == ChannelClosed
      ensures r.Refused? && receiving ==> transport.Oneshot? && (contended || !old(sender))
    {
      if transport.Bounded? && receiving && |queue| >= transport.capacity { return Waiting; }
      r := SendSync(m, contended);
    }

    /** Takes the oldest message off the queue. */
    method Take() returns (r: RecvResult<T>)
      requires Balanced() && receiving && queue != []
      modifies this`queue, this`received, this`receiving, this`place
      ensures Valid() && r == Delivered(old(queue)[0])
      ensures received == old(received) + [old(queue)[0]] && queue == old(queue)[1..]
      ensures receiving == !transport.Oneshot?
      ensures place == if transport.Oneshot? then Gone else old(place)
    {
      r := Delivered(queue[0]);
      received := received + [queue[0]];
      queue := queue[1..];
      if transport.Oneshot? { receiving, place := false, Gone; }
    }

    /** The inner oneshot receiver is dropped, with the value it may hold. */
    method DropInner()
      requires Balanced() && transport.Oneshot?
      modifies this`queue, this`receiving, this`place
      ensures Valid() && place == Gone && !receiving && queue == []
    {
      queue, receiving, place := [], false, Gone;
    }

    /**
     * One poll of the inner oneshot receiver, which panics when it was ready before: Valid is what
     * lets every operation meet the precondition.
     */
    method PollInner() returns (ready: bool, m: Option<Message<T>>)
      requires transport.Oneshot? && !place.Gone? && !completed
      modifies this`completed
      ensures completed == ready == (queue != [] || !sender)
      ensures m == if queue != [] then Some(queue[0]) else None
    {
      ready := queue != [] || !sender;
      m := if queue != [] then Some(queue[0]) else None;
      completed := ready;
    }

    /** `try_recv`; no `recv` can be in progress, since both borrow the receiver. */
    method TryRecv() returns (r: RecvResult<T>)
      requires Valid() && !place.InFuture? && (!transport.Oneshot? ==> receiving)
      modifies this`queue, this`received, this`receiving, this`place, this`completed
      ensures Valid() && !r.Pending?
      ensures old(receiving) && old(queue) != [] ==>
                r == Delivered(old(queue)[0]) && received == old(received) + [old(queue)[0]] && queue == old(queue)[1..]
      ensures !(old(receiving) && old(queue) != []) ==>
                r == NoMessage && received == old(received) && queue == old(queue)
      ensures old(queue) == [] && (!transport.Oneshot? || sender) ==> receiving == old(receiving) && place == old(place)
    {
      if transport.Oneshot? {
        if place.Gone? { return NoMessage; }
        var ready, m := PollInner();
        if m.Some? {
          r := Take();
        } else if !ready {
          place := InOption;
          r := NoMessage;
        } else {
          DropInner();
          r := NoMessage;
        }
      } else if queue != [] {
        r := Take();
      } else {
        r := NoMessage;
      }
    }

    /** One poll of the future of `recv`; the oneshot's inner receiver moves into the future. */
    method PollRecv() returns (r: RecvResult<T>)
      requires Valid() && (!transport.Oneshot? ==> receiving)
      modifies this`queue, this`received, this`receiving, this`place, this`completed
      ensures Valid()
      ensures old(queue) != [] ==>
                r == Delivered(old(queue)[0]) && received == old(received) + [old(queue)[0]] && queue == old(queue)[1..]
      ensures old(queue) == [] ==> received == old(received) && queue == []
      ensures old(queue) == [] ==>
                (r.Pending? <==> old(receiving) && if transport.Oneshot? then sender else senders > 0)
      ensures old(queue) == [] && !r.Pending? ==> r == NoMessage
      ensures transport.Oneshot? ==> place == if r.Pending? then InFuture else Gone
    {
      if transport.Oneshot? {
        if place.Gone? { return NoMessage; }
        place := InFuture;
        var ready, m := PollInner();
        if !ready {
          r := Pending;
        } else if m.Some? {
          r := Take();
        } else {
          DropInner();
          r := NoMessage;
        }
      } else if queue != [] {
        r := Take();
      } else {
        r := if senders > 0 then Pending else NoMessage;
      }
    }

    /**
     * The future of `recv` is dropped before it is ready. A queue loses nothing; the oneshot's
     * inner receiver is dropped with the future, and a value sent to it is lost.
     */
    method CancelRecv()
      requires Valid()
      modifies this`queue, this`receiving, this`place
      ensures Valid()
      ensures !(transport.Oneshot? && old(place).InFuture?) ==>
                queue == old(queue) && receiving == old(receiving) && place == old(place)
      ensures transport.Oneshot? && old(place).InFuture? ==> place == Gone && queue == []
    {
      if transport.Oneshot? && place.InFuture? { DropInner(); }
    }

    /**
     * One poll of the receiver itself (`Future for Receiver`): the inner receiver stays in the
     * `Option` until it is ready, so giving up between polls loses nothing.
     */
    method Poll() returns (r: RecvResult<T>)
      requires Valid() && !place.InFuture? && (!transport.Oneshot? ==> receiving)
      modifies this`queue, this`received, this`receiving, this`place, this`completed
      ensures Valid()
      ensures old(queue) != [] ==>
                r == Delivered(old(queue)[0]) && received == old(received) + [old(queue)[0]] && queue == old(queue)[1..]
      ensures old(queue) == [] ==> received == old(received) && queue == []
      ensures old(queue) == [] ==>
                (r.Pending? <==> old(receiving) && if transport.Oneshot? then sender else senders > 0)
      ensures old(queue) == [] && !r.Pending? ==> r == NoMessage
      ensures transport.Oneshot? ==> place == if r.Pending? then InOption else Gone
    {
      if transport.Oneshot? {
        if place.Gone? { return NoMessage; }
        var ready, m := PollInner();
        if !ready {
          r := Pending;
        } else if m.Some? {
          r := Take();
        } else {
          DropInner();
          r := NoMessage;
        }
      } else if queue != [] {
        r := Take();
      } else {
        r := if senders > 0 then Pending else NoMessage;
      }
    }

    /** The receiver is dropped. */
    method DropReceiver()
      requires Valid() && receiving && !place.InFuture?
      modifies this`queue, this`receiving, this`place
      ensures Valid() && !receiving && queue == []
    {
      queue, receiving := [], false;
      if transport.Oneshot? { place := Gone; }
    }

    // ----- whole runs -----

    /** The ends that the action uses exist, and no `recv` in progress borrows the receiver. */
    predicate Enabled(a: Action<T>)
      reads this
    {
      match a
      case Clone | Release | Send(_, _) | SendLater(_, _) => senders > 0
      case GiveUp => true
      case Receive => transport.Oneshot? || receiving
      case TryReceive | Await => !place.InFuture? && (transport.Oneshot? || receiving)
      case Close => receiving && !place.InFuture?
    }

    /** One action of one task. */
    method Act(a: Action<T>) returns (r: RecvResult<T>)
      requires Valid() && Enabled(a)
      modifies this
      ensures Valid() && old(accepted) <= accepted
      ensures if r.Received? || r.ReceivedErr?
              then
                && |received| == old(|received|) + 1 && old(received) <= received
                && r == Delivered(received[|received| - 1])
              else received == old(received)
    {
      r := NoMessage;
      match a {
        case Clone => CloneSender();
        case Release => DropSender();
        case Send(m, contended) => var sent := SendSync(m, contended);
        case SendLater(m, contended) => var sent := SendAsync(m, contended);
        case TryReceive => r := TryRecv();
        case Receive => r := PollRecv();
        case GiveUp => CancelRecv();
        case Await => r := Poll();
        case Close => DropReceiver();
      }
    }

    /**
     * Any interleaving of the senders' and the receiver's actions: the receiver's callers are told
     * exactly the messages received, and Valid says what these and the queued ones are.
     */
    method Run(script: seq<Action<T>>) returns (told: seq<RecvResult<T>>)
      requires Valid()
      modifies this
      ensures Valid() && old(accepted) <= accepted && old(received) <= received
      ensures told == Outcomes(received[|old(received)|..])
      ensures received <= accepted && (receiving ==> received + queue == accepted)
      ensures transport.Bounded? ==> |queue| <= transport.capacity
      ensures transport.Oneshot? ==> |accepted| <= 1
    {
      told := [];
      for i := 0 to |script|
        invariant Valid() && old(accepted) <= accepted && old(received) <= received
        invariant told == Outcomes(received[|old(received)|..])
      {
        if Enabled(script[i]) {
          var r := Act(script[i]);
          if r.Received? || r.ReceivedErr? { told := told + [r]; }
        }
      }
    }
  }
}
