/**
 The resuming subscription: a client that drops, resubscribes, fails and is
 cancelled in the middle of its awaits, and still hands out the log with no gap and
 no duplicate, because it records its resume point before it returns an event.
 */
module Subscription {
  import opened Wrappers

  /** A stream revision, or a position in the transaction log of `$all`. */
  datatype Mark = Revision(revision: nat) | LogPosition(commit: nat, prepare: nat) {
    predicate Before(that: Mark) {
      match (this, that)
      case (Revision(a), Revision(b)) => a < b
      case (LogPosition(c, p), LogPosition(d, q)) => c < d || (c == d && p < q)
      case _ => false
    }
  }

  /** A recorded event, and whether the subscription's server-side filter lets it through. */
  datatype Entry = Entry(mark: Mark, matches: bool, payload: string)

  datatype Start = FromStart | FromEnd | After(mark: Mark) {
    function Bound(): Option<Mark> {
      if After? then Some(mark) else None
    }
  }

  predicate Sorted(log: seq<Entry>) {
    forall i, j | 0 <= i < j < |log| :: log[i].mark.Before(log[j].mark)
  }

  /** The server's start rule is exclusive: only events after the bound are wanted. */
  predicate Wanted(entry: Entry, bound: Option<Mark>) {
    entry.matches && (bound.None? || bound.value.Before(entry.mark))
  }

  function Selected(log: seq<Entry>, bound: Option<Mark>): seq<Entry> {
    if log == [] then []
    else
      var last := log[|log| - 1];
      Selected(log[..|log| - 1], bound) + if Wanted(last, bound) then [last] else []
  }

  /** What a caller asked for: matching events, after the named one if the start names one. */
  ghost predicate AskedFor(start: Start, entry: Entry) {
    && entry.matches
    && match start
       case FromStart => true
       case FromEnd => true
       case After(Revision(a)) => entry.mark.Revision? && a < entry.mark.revision
       case After(LogPosition(commit, prepare)) =>
         && entry.mark.LogPosition?
         && (commit < entry.mark.commit || (commit == entry.mark.commit && prepare < entry.mark.prepare))
  }

  /**
   What a start selects, in the log's own terms: from the very start every matching event
   of the log, the first one included; after a mark, exactly the later ones.
   */
  lemma StartSelects(log: seq<Entry>, start: Start)
    requires Sorted(log)
    ensures Sorted(Selected(log, start.Bound()))
    ensures forall entry :: entry in Selected(log, start.Bound()) <==> entry in log && AskedFor(start, entry)
  {
    SelectionIsExact(log, start.Bound());
    forall entry
      ensures Wanted(entry, start.Bound()) <==> AskedFor(start, entry)
    {
    }
  }

  // ---------------------------------------------------------------- the server's side

  /** One server-side reader: where it is and what it was asked to send. */
  datatype Feed = Feed(cursor: nat, bound: Option<Mark>)

  function OpenFeed(log: seq<Entry>, start: Start): Feed {
    Feed(if start.FromEnd? then |log| else 0, start.Bound())
  }

  predicate Sends(log: seq<Entry>, feed: Feed, i: nat)
    requires i < |log|
  {
    feed.cursor <= i && Wanted(log[i], feed.bound)
  }

  /** The event the server sends next. */
  ghost predicate NextSent(log: seq<Entry>, feed: Feed, i: nat) {
    && i < |log|
    && Sends(log, feed, i)
    && forall j | 0 <= j < i :: !Sends(log, feed, j)
  }

  datatype Control = Confirmed | Checkpoint(mark: Mark) | CaughtUp | FellBehind | StreamPosition(mark: Mark)

  datatype FailureKind = AccessDenied | Unavailable

  datatype Received =
    | Dropped(failure: FailureKind)
    | Arrived(index: nat)
    | Controlled(control: Control)
    | Nothing

  class Server {
    var log: seq<Entry>
    /** Whether the server, and the way to it, never hold anything up. */
    const prompt: bool
    /**
     What was held up so far: attempts to subscribe that failed, and awaits on an open
     stream that ended without an event although the log held one to send.
     */
    ghost var delays: nat

    constructor (prompt: bool)
      ensures log == [] && delays == 0 && this.prompt == prompt
    {
      log := [];
      delays := 0;
      this.prompt := prompt;
    }

    /** Anyone may append meanwhile. */
    method Grow()
      requires Sorted(log)
      modifies `log
      ensures Sorted(log) && old(log) <= log
    {
      var more: seq<Entry> := *;
      if Sorted(log + more) {
        log := log + more;
      }
    }

    /** Finds the node to talk to, or fails to. */
    method CurrentSelectedNode() returns (found: bool)
      modifies `delays
      ensures delays == old(delays) + if found then 0 else 1
      ensures prompt ==> found
    {
      var reached: bool := *;
      found := prompt || reached;
      if !found { delays := delays + 1; }
    }

    /** Opens a subscription, or refuses. */
    method Read(start: Start) returns (r: Result<Feed, FailureKind>)
      requires Sorted(log)
      modifies this
      ensures Sorted(log) && old(log) <= log
      ensures r.Success? ==> r.value == OpenFeed(log, start)
      ensures delays == old(delays) + if r.Success? then 0 else 1
      ensures prompt ==> r.Success?
    {
      Grow();
      var admitted: bool := *;
      if prompt || admitted { return Success(OpenFeed(log, start)); }
      delays := delays + 1;
      if * { return Failure(AccessDenied); }
      return Failure(Unavailable);
    }

    /** One message of an open subscription, of whatever kind; events come in log order. */
    method Receive(feed: Feed) returns (message: Received)
      requires Sorted(log)
      modifies this
      ensures Sorted(log) && old(log) <= log
      ensures message.Arrived? ==> NextSent(log, feed, message.index)
      ensures old(delays) <= delays && (prompt ==> delays == old(delays))
      ensures delays == old(delays) && !message.Arrived? ==> forall i | 0 <= i < |log| :: !Sends(log, feed, i)
    {
      Grow();
      for i := 0 to |log|
        invariant forall j | 0 <= j < i :: !Sends(log, feed, j)
      {
        if Sends(log, feed, i) {
          var sent: bool := *;
          if prompt || sent { return Arrived(i); }
          delays := delays + 1;
          break;
        }
      }
      if * { return Dropped(AccessDenied); }
      if * { return Dropped(Unavailable); }
      if * {
        var control: Control := *;
        return Controlled(control);
      }
      return Nothing;
    }
  }

  // ---------------------------------------------------------------- the client

  datatype SubscriptionEvent = EventAppeared(entry: Entry) | ControlEvent(control: Control)

  /** How a call ends; a cancelled call was dropped at one of its awaits. */
  datatype CallResult = Returned(event: SubscriptionEvent) | Failed(failure: FailureKind) | Cancelled

  /** The event a call hands to its caller. */
  function Handed(r: Option<CallResult>): seq<Entry> {
    if r.Some? && r.value.Returned? && r.value.event.EventAppeared? then [r.value.event.entry] else []
  }

  /** An event between the two points that the subscription wants, so one it has handed out. */
  ghost predicate Passed(log: seq<Entry>, origin: nat, cut: nat, bound: Option<Mark>, k: int)
    requires cut <= |log|
  {
    origin <= k < cut && Wanted(log[k], bound)
  }

  /** An open feed will send next what the log holds next after the cut. */
  ghost predicate Aligned(log: seq<Entry>, feed: Feed, origin: nat, cut: nat, bound: Option<Mark>)
    requires cut <= |log|
  {
    || (feed.cursor == cut && feed.bound == bound)
    || (exists k :: Passed(log, origin, cut, bound, k) && feed == Feed(cut, Some(log[k].mark)))
    || (Passed(log, origin, cut, bound, cut - 1) && feed.cursor <= cut && feed.bound == Some(log[cut - 1].mark))
  }

  /** The log holds a wanted event that was not handed out yet. */
  ghost predicate Due(log: seq<Entry>, cut: nat, bound: Option<Mark>) {
    exists k :: cut <= k < |log| && Wanted(log[k], bound)
  }

  /** An aligned feed has every such event still to send. */
  lemma DueIsSent(log: seq<Entry>, later: seq<Entry>, feed: Feed, origin: nat, cut: nat, bound: Option<Mark>)
    requires Sorted(later) && log <= later && cut <= |later|
    requires Aligned(later, feed, origin, cut, bound) && Due(log, cut, bound)
    ensures exists i :: 0 <= i < |later| && Sends(later, feed, i)
  {
    var k :| cut <= k < |log| && Wanted(log[k], bound);
    assert later[k] == log[k];
    assert Sends(later, feed, k);
  }

  /** Whoever handed out less than the log holds has an event due. */
  lemma LessIsDue(log: seq<Entry>, later: seq<Entry>, cut: nat, bound: Option<Mark>)
    requires log <= later && cut <= |later|
    requires |Selected(later[..cut], bound)| < |Selected(log, bound)|
    ensures Due(later, cut, bound)
  {
    var n := |log|;
    assert later[..n] == log;
    if cut <= n {
      assert later[0..n] == log && later[0..cut] == later[..cut];
      if !Due(later, cut, bound) {
        SelectedSkips(later, 0, cut, n, bound);
      }
    } else {
      assert later[..cut][..n] == log;
      SelectionIsContiguous(later[..cut], n, bound);
    }
  }

  class Subscription {
    var start: Start
    var stream: Option<Feed>
    var attempts: nat
    const limit: nat
    const retryEnabled: bool

    ghost const initialStart: Start
    ghost var delivered: seq<Entry>
    ghost var origin: nat
    ghost var cut: nat
    /** Where the log ended, for a start at the end, when the subscription was first open. */
    ghost var begun: Option<nat>

    /** What was handed out is exactly what lies wanted between two points of the log. */
    ghost predicate Consistent(log: seq<Entry>)
      reads `start, `delivered, `origin, `cut, `begun
    {
      && Sorted(log)
      && origin <= cut <= |log|
      && delivered == Selected(log[origin..cut], initialStart.Bound())
      && (!initialStart.FromEnd? ==> origin == 0)
      && (delivered == [] ==> start == initialStart && origin == cut)
      && (begun.Some? ==> begun.value <= origin)
      && (delivered != [] ==>
            && begun.Some?
            && origin < cut
            && log[cut - 1] == delivered[|delivered| - 1]
            && Wanted(log[cut - 1], initialStart.Bound())
            && start == After(log[cut - 1].mark))
    }

    /** The wanted events that arrived since the subscription was first open and will never be handed out. */
    ghost function Lost(log: seq<Entry>): seq<Entry>
      requires Consistent(log)
      reads `start, `delivered, `origin, `cut, `begun
    {
      if begun.Some? then Selected(log[begun.value..origin], initialStart.Bound()) else []
    }

    ghost predicate Valid(log: seq<Entry>)
      reads this
    {
      && Consistent(log)
      && (stream.Some? ==> begun.Some? && Aligned(log, stream.value, origin, cut, initialStart.Bound()))
      && 1 <= attempts
      && (attempts <= limit || attempts == 1)
    }

    /** An event is due, and a caller this patient can await it. */
    ghost predicate Ready(log: seq<Entry>, patience: nat)
      reads `start, `stream, `cut
    {
      && Due(log, cut, initialStart.Bound())
      && if stream.Some? then patience >= 1 else patience >= 3 && !start.FromEnd?
    }

    constructor (retryLimit: Option<nat>, options: Start, ghost log: seq<Entry>)
      requires Sorted(log)
      ensures Valid(log) && delivered == [] && initialStart == options && stream.None? && begun.None?
      ensures start == options && attempts == 1
      ensures if retryLimit.Some? then retryEnabled && limit == retryLimit.value else !retryEnabled && limit == 1
    {
      limit := if retryLimit.Some? then retryLimit.value else 1;
      retryEnabled := retryLimit.Some?;
      start := options;
      initialStart := options;
      stream := None;
      attempts := 1;
      delivered := [];
      origin := 0;
      cut := 0;
      begun := None;
    }

    /** Log growth disturbs nothing. */
    lemma StaysConsistent(log: seq<Entry>, later: seq<Entry>)
      requires Consistent(log) && log <= later && Sorted(later)
      ensures Consistent(later) && Lost(later) == Lost(log)
    {
      assert later[origin..cut] == log[origin..cut];
      assert begun.Some? ==> later[begun.value..origin] == log[begun.value..origin];
      assert forall k | 0 <= k < cut :: later[k] == log[k];
    }

    /** The resume point moves to an arrived event before the event is handed out. */
    method HandOut(log: seq<Entry>, feed: Feed, index: nat)
      requires Consistent(log) && Aligned(log, feed, origin, cut, initialStart.Bound()) && NextSent(log, feed, index)
      requires begun.Some?
      modifies this
      ensures Consistent(log) && attempts == old(attempts)
      ensures stream.Some? && Aligned(log, stream.value, origin, cut, initialStart.Bound())
      ensures delivered == old(delivered) + [log[index]]
      ensures origin == old(origin) && begun == old(begun)
    {
      Advances(log, feed, index, origin, cut, initialStart.Bound());
      stream := Some(Feed(index + 1, feed.bound));
      start := After(log[index].mark);
      delivered := delivered + [log[index]];
      cut := index + 1;
    }

    /**
     A freshly opened feed resumes after the last event handed out, or at the chosen
     start.  Reopening at the end, before any event was handed out, loses exactly what
     the dropped feed had still to send.
     */
    method Attach(log: seq<Entry>, feed: Feed)
      requires Consistent(log) && feed == OpenFeed(log, start)
      modifies this
      ensures Consistent(log) && attempts == old(attempts)
      ensures Aligned(log, feed, origin, cut, initialStart.Bound())
      ensures delivered == old(delivered) && start == old(start) && stream == Some(feed)
      ensures !start.FromEnd? ==> cut == old(cut)
      ensures origin == if old(delivered) == [] && old(start).FromEnd? then |log| else old(origin)
      ensures begun == if old(begun).Some? then old(begun) else Some(origin)
      ensures Lost(log) == old(Lost(log)) + LostNow(log, old(begun), old(origin), origin)
      ensures Lost(log) == old(Lost(log)) <==>
        || old(delivered) != []
        || !old(start).FromEnd?
        || LostNow(log, old(begun), old(origin), |log|) == []
    {
      ghost var before := origin;
      if delivered == [] && start.FromEnd? {
        origin := |log|;
        cut := origin;
        assert log[origin..cut] == [];
      }
      stream := Some(feed);
      if begun.Some? {
        SelectedJoins(log, begun.value, before, origin, initialStart.Bound());
      } else {
        begun := Some(origin);
        assert log[origin..origin] == [];
      }
    }

    /** What moving the origin loses of a subscription that was open before. */
    ghost function LostNow(log: seq<Entry>, before: Option<nat>, from: nat, end: nat): seq<Entry>
      requires from <= end <= |log|
    {
      if before.Some? then Selected(log[from..end], initialStart.Bound()) else []
    }

    /** The next message of the stream; the log may have grown before it came. */
    method Await(server: Server, feed: Feed) returns (message: Received)
      requires Consistent(server.log) && Aligned(server.log, feed, origin, cut, initialStart.Bound())
      modifies server
      ensures Consistent(server.log) && Aligned(server.log, feed, origin, cut, initialStart.Bound())
      ensures old(server.log) <= server.log && Lost(server.log) == old(Lost(server.log))
      ensures old(server.delays) <= server.delays && (server.prompt ==> server.delays == old(server.delays))
      ensures message.Arrived? ==> NextSent(server.log, feed, message.index)
      ensures server.delays == old(server.delays) && Due(old(server.log), cut, initialStart.Bound()) ==>
        message.Arrived?
    {
      ghost var seen := server.log;
      message := server.Receive(feed);
      StaysAligned(seen, server.log, feed, origin, cut, initialStart.Bound());
      StaysConsistent(seen, server.log);
      if Due(seen, cut, initialStart.Bound()) {
        DueIsSent(seen, server.log, feed, origin, cut, initialStart.Bound());
      }
    }

    /** One await on the open stream; no result means the loop goes on. */
    method Poll(server: Server, patience: nat) returns (r: Option<CallResult>, left: nat)
      requires Valid(server.log) && stream.Some?
      modifies this, server
      ensures Valid(server.log) && old(server.log) <= server.log
      ensures old(server.delays) <= server.delays && (server.prompt ==> server.delays == old(server.delays))
      ensures left <= patience && (r.None? ==> left < patience)
      ensures delivered == old(delivered) + Handed(r)
      ensures origin == old(origin) && begun == old(begun) && Lost(server.log) == old(Lost(server.log))
      ensures server.delays == old(server.delays) && old(Ready(server.log, patience)) ==> Handed(r) != []
    {
      var feed := stream.value;
      stream := None;
      left := patience;
      if left == 0 { return Some(Cancelled), left; }
      left := left - 1;
      var message := Await(server, feed);
      r := React(server.log, feed, message);
    }

    /** What one message does; the stream it came on was taken before the await. */
    method React(log: seq<Entry>, feed: Feed, message: Received) returns (r: Option<CallResult>)
      requires Valid(log) && stream.None? && Aligned(log, feed, origin, cut, initialStart.Bound())
      requires begun.Some? && (message.Arrived? ==> NextSent(log, feed, message.index))
      modifies this
      ensures Valid(log)
      ensures delivered == old(delivered) + Handed(r)
      ensures origin == old(origin) && begun == old(begun)
      ensures start == if message.Arrived? then After(log[message.index].mark) else old(start)
      ensures attempts == if message.Dropped? then 1 else old(attempts)
      ensures stream.None? <==> message.Dropped?
      ensures r == match message
                   case Dropped(failure) =>
                     if failure.AccessDenied? || !retryEnabled then Some(Failed(failure)) else None
                   case Nothing => None
                   case Controlled(control) => Some(Returned(ControlEvent(control)))
                   case Arrived(index) => Some(Returned(EventAppeared(log[index])))
    {
      match message {
        case Dropped(failure) =>
          attempts := 1;
          if failure.AccessDenied? || !retryEnabled { return Some(Failed(failure)); }
          return None;
        case Nothing =>
          stream := Some(feed);
          return None;
        case Controlled(control) =>
          stream := Some(feed);
          return Some(Returned(ControlEvent(control)));
        case Arrived(index) =>
          HandOut(log, feed, index);
          return Some(Returned(EventAppeared(log[index])));
      }
    }

    /** What the server's answer to an attempt does; an access denial is never retried. */
    method Answered(log: seq<Entry>, reply: Result<Feed, FailureKind>, patience: nat)
      returns (r: Option<CallResult>, left: nat)
      requires Valid(log) && stream.None? && (reply.Success? ==> reply.value == OpenFeed(log, start))
      modifies this
      ensures Valid(log) && left <= patience
      ensures delivered == old(delivered) && start == old(start)
      ensures stream.Some? <==> reply.Success?
      ensures attempts == if reply == Failure(Unavailable) && old(attempts) < limit
                          then old(attempts) + 1 else old(attempts)
      ensures match reply
              case Success(_) => r.None?
              case Failure(AccessDenied) => r == Some(Failed(AccessDenied))
              case Failure(Unavailable) =>
                if old(attempts) < limit then r.None? || r == Some(Cancelled) else r == Some(Failed(Unavailable))
      ensures origin == if reply.Success? && old(delivered) == [] && old(start).FromEnd? then |log| else old(origin)
      ensures reply.Success? && !start.FromEnd? ==> cut == old(cut) && left == patience
      ensures begun == if old(begun).None? && reply.Success? then Some(origin) else old(begun)
      ensures Lost(log) == old(Lost(log)) + LostNow(log, old(begun), old(origin), origin)
    {
      left := patience;
      assert log[origin..origin] == [];
      if reply.Success? {
        Attach(log, reply.value);
        return None, left;
      }
      if !reply.error.AccessDenied? && attempts < limit {
        attempts := attempts + 1;
        if left == 0 { return Some(Cancelled), left; }
        return None, left - 1;
      }
      return Some(Failed(reply.error)), left;
    }

    /** The subscription call, made from the resume point; the log may have grown before it is answered. */
    method Ask(server: Server) returns (reply: Result<Feed, FailureKind>)
      requires Valid(server.log) && stream.None?
      modifies server
      ensures Valid(server.log) && old(server.log) <= server.log && Lost(server.log) == old(Lost(server.log))
      ensures reply.Success? ==> reply.value == OpenFeed(server.log, start)
      ensures server.delays == old(server.delays) + if reply.Success? then 0 else 1
      ensures server.prompt ==> reply.Success?
    {
      ghost var seen := server.log;
      reply := server.Read(start);
      StaysConsistent(seen, server.log);
    }

    /**
     One attempt to subscribe from the resume point; no result means the loop goes on.
     `reply` is what the server said, if it was asked.
     */
    method Resubscribe(server: Server, patience: nat)
      returns (r: Option<CallResult>, left: nat, ghost reply: Option<Result<Feed, FailureKind>>)
      requires Valid(server.log) && stream.None?
      modifies this, server
      ensures Valid(server.log) && old(server.log) <= server.log
      ensures old(server.delays) <= server.delays && (server.prompt ==> server.delays == old(server.delays))
      ensures left <= patience && (r.None? ==> left < patience)
      ensures delivered == old(delivered) && start == old(start)
      ensures r.Some? ==> r.value.Cancelled? || r.value.Failed?
      ensures stream.Some? <==> reply.Some? && reply.value.Success?
      ensures attempts == if reply == Some(Failure(Unavailable)) && old(attempts) < limit
                          then old(attempts) + 1 else old(attempts)
      ensures match reply
              case None => r.Some?
              case Some(Success(_)) => r.None?
              case Some(Failure(AccessDenied)) => r == Some(Failed(AccessDenied))
              case Some(Failure(Unavailable)) =>
                if old(attempts) < limit then r.None? || r == Some(Cancelled) else r == Some(Failed(Unavailable))
      ensures origin == if stream.Some? && old(delivered) == [] && old(start).FromEnd?
                        then |server.log| else old(origin)
      ensures server.delays == old(server.delays) && patience >= 2 && !start.FromEnd? ==>
        stream.Some? && cut == old(cut) && left == patience - 2
      ensures begun == if old(begun).None? && stream.Some? then Some(origin) else old(begun)
      ensures Lost(server.log) == old(Lost(server.log)) + LostNow(server.log, old(begun), old(origin), origin)
    {
      reply := None;
      left := patience;
      if left == 0 { return Some(Cancelled), left, reply; }
      left := left - 1;
      var found := server.CurrentSelectedNode();
      if !found { return Some(Failed(Unavailable)), left, reply; }
      if left == 0 { return Some(Cancelled), left, reply; }
      left := left - 1;
      var answer := Ask(server);
      reply := Some(answer);
      r, left := Answered(server.log, answer, left);
    }

    /** One turn of the loop: an await on the stream, or an attempt to get one. */
    method Turn(server: Server, patience: nat) returns (r: Option<CallResult>, left: nat)
      requires Valid(server.log)
      modifies this, server
      ensures Valid(server.log) && old(server.log) <= server.log
      ensures old(server.delays) <= server.delays && (server.prompt ==> server.delays == old(server.delays))
      ensures left <= patience && (r.None? ==> left < patience)
      ensures delivered == old(delivered) + Handed(r)
      ensures old(delivered) != [] ==> origin == old(origin)
      ensures old(begun).Some? ==> begun == old(begun)
      ensures old(Lost(server.log)) <= Lost(server.log)
      ensures old(delivered) != [] || !initialStart.FromEnd? ==> Lost(server.log) == old(Lost(server.log))
      ensures server.delays == old(server.delays) && old(Ready(server.log, patience)) ==>
        Handed(r) != [] || (r.None? && Ready(server.log, left))
    {
      if stream.Some? {
        r, left := Poll(server, patience);
      } else {
        var answer, rest, _ := Resubscribe(server, patience);
        r, left := answer, rest;
        assert server.log[origin..origin] == [];
      }
    }

    /**
     One call.  `patience` is how many awaits it gets before its caller drops it, so
     every cancellation point is covered.  When an event is due, it takes one await on an
     open stream or three without one, unless it is held up.
     */
    method NextSubscriptionEvent(server: Server, patience: nat) returns (r: CallResult)
      requires Valid(server.log)
      modifies this, server
      ensures Valid(server.log) && old(server.log) <= server.log
      ensures old(server.delays) <= server.delays && (server.prompt ==> server.delays == old(server.delays))
      ensures delivered == old(delivered) + Handed(Some(r))
      ensures old(delivered) != [] ==> origin == old(origin)
      ensures old(begun).Some? ==> begun == old(begun)
      ensures old(Lost(server.log)) <= Lost(server.log)
      ensures old(delivered) != [] || !initialStart.FromEnd? ==> Lost(server.log) == old(Lost(server.log))
      ensures server.delays == old(server.delays) && old(Ready(server.log, patience)) ==> Handed(Some(r)) != []
    {
      var left := patience;
      var result: Option<CallResult> := None;
      while result.None?
        invariant Valid(server.log) && old(server.log) <= server.log
        invariant delivered == old(delivered) + Handed(result)
        invariant old(delivered) != [] ==> origin == old(origin)
        invariant old(begun).Some? ==> begun == old(begun)
        invariant old(Lost(server.log)) <= Lost(server.log)
        invariant old(delivered) != [] || !initialStart.FromEnd? ==> Lost(server.log) == old(Lost(server.log))
        invariant old(server.delays) <= server.delays && (server.prompt ==> server.delays == old(server.delays))
        invariant server.delays == old(server.delays) && old(Ready(server.log, patience)) ==>
          Handed(result) != [] || (result.None? && Ready(server.log, left))
        decreases left, result.None?
      {
        result, left := Turn(server, left);
      }
      return result.value;
    }

    /** Calls until an event appears. */
    method Next(server: Server, patience: nat) returns (r: CallResult)
      requires Valid(server.log)
      modifies this, server
      ensures Valid(server.log) && old(server.log) <= server.log
      ensures old(server.delays) <= server.delays && (server.prompt ==> server.delays == old(server.delays))
      ensures delivered == old(delivered) + Handed(Some(r))
      ensures r.Returned? ==> r.event.EventAppeared?
      ensures server.delays == old(server.delays) && old(Ready(server.log, patience)) ==> r.Returned?
    {
      var calls := patience;
      while true
        invariant Valid(server.log) && old(server.log) <= server.log
        invariant delivered == old(delivered)
        invariant old(server.delays) <= server.delays && (server.prompt ==> server.delays == old(server.delays))
        invariant server.delays == old(server.delays) && old(Ready(server.log, patience)) ==>
          Ready(server.log, patience)
        decreases calls
      {
        r := NextSubscriptionEvent(server, patience);
        if !r.Returned? || r.event.EventAppeared? || calls == 0 { break; }
        calls := calls - 1;
      }
      if r.Returned? && r.event.ControlEvent? { r := Cancelled; }
    }

    /**
     Any number of calls, each dropped wherever its patience ends: together they hand
     out one contiguous stretch of what the log holds after the start, in order, each
     event once and none left out.  Calls of three awaits hand out everything the log held,
     given one call for each event and one for each time they are held up.
     */
    method Drain(server: Server, patience: seq<nat>) returns (handed: seq<Entry>)
      requires Valid(server.log) && delivered == []
      modifies this, server
      ensures Valid(server.log) && old(server.log) <= server.log
      ensures old(server.delays) <= server.delays && (server.prompt ==> server.delays == old(server.delays))
      ensures handed <= Selected(server.log[origin..], initialStart.Bound())
      ensures !initialStart.FromEnd? ==> handed <= Selected(server.log, initialStart.Bound())
      ensures begun.Some? ==>
        Lost(server.log) + handed == Selected(server.log[begun.value..cut], initialStart.Bound())
      ensures !initialStart.FromEnd? ==> Lost(server.log) == []
      ensures Sorted(handed)
      ensures
        && !initialStart.FromEnd? && (forall i | 0 <= i < |patience| :: patience[i] >= 3)
        && |Selected(old(server.log), initialStart.Bound())| + server.delays - old(server.delays) <= |patience|
        ==> forall entry | entry in old(server.log) && AskedFor(initialStart, entry) :: entry in handed
      ensures forall entry | entry in handed :: entry in server.log && AskedFor(initialStart, entry)
      ensures forall k | origin <= k < |server.log| && AskedFor(initialStart, server.log[k]) ::
        server.log[k] in handed || (forall entry | entry in handed :: entry.mark.Before(server.log[k].mark))
    {
      ghost var wanted := Selected(server.log, initialStart.Bound());
      ghost var before := server.log;
      handed := [];
      for i := 0 to |patience|
        invariant Valid(server.log) && old(server.log) <= server.log
        invariant handed == delivered
        invariant old(server.delays) <= server.delays && (server.prompt ==> server.delays == old(server.delays))
        invariant !initialStart.FromEnd? && (forall j | 0 <= j < |patience| :: patience[j] >= 3) ==>
          i <= |handed| + server.delays - old(server.delays) || |wanted| <= |handed|
      {
        if !initialStart.FromEnd? && |handed| < |wanted| && patience[i] >= 3 {
          ShortIsReady(before, server.log, patience[i]);
        }
        var r := NextSubscriptionEvent(server, patience[i]);
        handed := handed + Handed(Some(r));
      }
      Contiguous(server.log);
      if !initialStart.FromEnd? && |wanted| <= |handed| { EnoughIsAll(before, server.log); }
      if begun.Some? { LostOrDelivered(server.log); }
    }

    /**
     Nothing is lost without being accounted for: everything wanted since the
     subscription was first open was lost or handed out, in that order.  Only a start at
     the end ever loses anything.
     */
    lemma LostOrDelivered(log: seq<Entry>)
      requires Valid(log) && begun.Some?
      ensures Lost(log) + delivered == Selected(log[begun.value..cut], initialStart.Bound())
      ensures Lost(log) == [] <==> delivered == Selected(log[begun.value..cut], initialStart.Bound())
      ensures !initialStart.FromEnd? ==> Lost(log) == [] && begun.value == 0
    {
      SelectedJoins(log, begun.value, origin, cut, initialStart.Bound());
      assert log[origin..origin] == [];
    }

    /** As long as less was handed out than the log once held, an event is due. */
    lemma ShortIsReady(before: seq<Entry>, log: seq<Entry>, patience: nat)
      requires Valid(log) && before <= log && !initialStart.FromEnd? && patience >= 3
      requires |delivered| < |Selected(before, initialStart.Bound())|
      ensures Ready(log, patience)
    {
      assert log[0..cut] == log[..cut];
      LessIsDue(before, log, cut, initialStart.Bound());
    }

    lemma EnoughIsAll(before: seq<Entry>, log: seq<Entry>)
      requires Valid(log) && before <= log && !initialStart.FromEnd?
      requires |Selected(before, initialStart.Bound())| <= |delivered|
      ensures forall entry | entry in before && AskedFor(initialStart, entry) :: entry in delivered
    {
      StartSelects(before, initialStart);
      Contiguous(log);
      assert log[..|before|] == before;
      SelectionIsContiguous(log, |before|, initialStart.Bound());
      assert Selected(before, initialStart.Bound()) <= delivered;
    }

    /** The state between calls, read as a statement about the log. */
    lemma Contiguous(log: seq<Entry>)
      requires Valid(log)
      ensures origin <= cut <= |log|
      ensures delivered <= Selected(log[origin..], initialStart.Bound())
      ensures !initialStart.FromEnd? ==> delivered <= Selected(log, initialStart.Bound())
      ensures Sorted(delivered)
      ensures forall entry :: entry in delivered <==> entry in log[origin..cut] && Wanted(entry, initialStart.Bound())
      ensures forall entry | entry in delivered :: entry in log && AskedFor(initialStart, entry)
      ensures forall k | origin <= k < |log| && AskedFor(initialStart, log[k]) ::
        log[k] in delivered || (forall entry | entry in delivered :: entry.mark.Before(log[k].mark))
    {
      StretchIsContiguous(log, origin, cut, initialStart.Bound());
      SelectionIsExact(log[origin..cut], initialStart.Bound());
      assert origin == 0 ==> log[origin..] == log;
      StretchIsComplete(log, origin, cut, initialStart);
    }
  }

  lemma {:induction false} SelectedJoins(log: seq<Entry>, from: nat, middle: nat, end: nat, bound: Option<Mark>)
    requires from <= middle <= end <= |log|
    ensures Selected(log[from..end], bound) == Selected(log[from..middle], bound) + Selected(log[middle..end], bound)
    decreases end
  {
    if middle < end {
      SelectedJoins(log, from, middle, end - 1, bound);
      assert log[from..end][..end - 1 - from] == log[from..end - 1];
      assert log[middle..end][..end - 1 - middle] == log[middle..end - 1];
    } else {
      assert log[middle..end] == [];
    }
  }

  /** What a stretch of the log selects, and what lies behind it. */
  lemma StretchIsComplete(log: seq<Entry>, origin: nat, cut: nat, start: Start)
    requires Sorted(log) && origin <= cut <= |log|
    ensures var chosen := Selected(log[origin..cut], start.Bound());
      && (forall entry | entry in chosen :: entry in log && AskedFor(start, entry))
      && (forall k | origin <= k < |log| && AskedFor(start, log[k]) ::
            log[k] in chosen || (forall entry | entry in chosen :: entry.mark.Before(log[k].mark)))
  {
    var stretch := log[origin..cut];
    assert forall i | 0 <= i < |stretch| :: stretch[i] == log[origin + i];
    StartSelects(stretch, start);
    var chosen := Selected(stretch, start.Bound());
    forall k | origin <= k < cut && AskedFor(start, log[k])
      ensures log[k] in chosen
    {
      assert stretch[k - origin] == log[k];
    }
    forall k, entry | cut <= k < |log| && entry in chosen
      ensures entry.mark.Before(log[k].mark)
    {
      var i :| 0 <= i < |stretch| && stretch[i] == entry;
      assert log[origin + i].mark.Before(log[k].mark);
    }
  }

  lemma StretchIsContiguous(log: seq<Entry>, origin: nat, cut: nat, bound: Option<Mark>)
    requires origin <= cut <= |log|
    ensures Selected(log[origin..cut], bound) <= Selected(log[origin..], bound)
    ensures Sorted(log) ==> Sorted(log[origin..cut])
  {
    assert log[origin..][..cut - origin] == log[origin..cut];
    SelectionIsContiguous(log[origin..], cut - origin, bound);
  }

  lemma StaysAligned(log: seq<Entry>, later: seq<Entry>, feed: Feed, origin: nat, cut: nat, bound: Option<Mark>)
    requires cut <= |log| && log <= later && Aligned(log, feed, origin, cut, bound)
    ensures Aligned(later, feed, origin, cut, bound)
  {
    assert forall k | 0 <= k < cut :: later[k] == log[k];
    if exists k :: Passed(log, origin, cut, bound, k) && feed == Feed(cut, Some(log[k].mark)) {
      var k :| Passed(log, origin, cut, bound, k) && feed == Feed(cut, Some(log[k].mark));
      assert Passed(later, origin, cut, bound, k);
    }
  }

  /** An aligned feed sends the first wanted event at or after the cut. */
  lemma SendsNext(log: seq<Entry>, feed: Feed, i: nat, origin: nat, cut: nat, bound: Option<Mark>)
    requires Sorted(log) && origin <= cut <= |log|
    requires Aligned(log, feed, origin, cut, bound) && NextSent(log, feed, i)
    ensures cut <= i && Wanted(log[i], bound)
    ensures forall j | cut <= j < i :: !Wanted(log[j], bound)
  {
    if feed.bound == bound && feed.cursor == cut {
      forall j | cut <= j < i
        ensures !Wanted(log[j], bound)
      {
        assert !Sends(log, feed, j);
      }
    } else {
      var k: nat :| && Passed(log, origin, cut, bound, k) && feed.bound == Some(log[k].mark)
                    && (feed.cursor == cut || k == cut - 1);
      assert forall j | k < j < |log| :: log[k].mark.Before(log[j].mark);
      assert forall j | 0 <= j < k :: log[j].mark.Before(log[k].mark);
      forall j | cut <= j < i
        ensures !Wanted(log[j], bound)
      {
        assert !Sends(log, feed, j);
      }
    }
  }

  /** Taking the next sent event moves the cut just behind it, and the feed stays aligned. */
  lemma Advances(log: seq<Entry>, feed: Feed, i: nat, origin: nat, cut: nat, bound: Option<Mark>)
    requires Sorted(log) && origin <= cut <= |log|
    requires Aligned(log, feed, origin, cut, bound) && NextSent(log, feed, i)
    ensures cut <= i && Wanted(log[i], bound)
    ensures Selected(log[origin..i + 1], bound) == Selected(log[origin..cut], bound) + [log[i]]
    ensures Aligned(log, Feed(i + 1, feed.bound), origin, i + 1, bound)
  {
    SendsNext(log, feed, i, origin, cut, bound);
    SelectedGrows(log, origin, cut, i, bound);
    if feed.bound != bound {
      var k: nat :| Passed(log, origin, cut, bound, k) && feed.bound == Some(log[k].mark);
      assert Passed(log, origin, i + 1, bound, k);
    }
  }

  /** Extending a selected stretch of the log up to the next wanted event adds that event and no other. */
  lemma {:induction false} SelectedGrows(log: seq<Entry>, from: nat, cut: nat, index: nat, bound: Option<Mark>)
    requires from <= cut <= index < |log|
    requires Wanted(log[index], bound)
    requires forall j | cut <= j < index :: !Wanted(log[j], bound)
    ensures Selected(log[from..index + 1], bound) == Selected(log[from..cut], bound) + [log[index]]
  {
    assert log[from..index + 1][..index - from] == log[from..index];
    SelectedSkips(log, from, cut, index, bound);
  }

  lemma {:induction false} SelectedSkips(log: seq<Entry>, from: nat, cut: nat, index: nat, bound: Option<Mark>)
    requires from <= cut <= index <= |log|
    requires forall j | cut <= j < index :: !Wanted(log[j], bound)
    ensures Selected(log[from..index], bound) == Selected(log[from..cut], bound)
    decreases index
  {
    if cut < index {
      assert log[from..index][..index - 1 - from] == log[from..index - 1];
      SelectedSkips(log, from, cut, index - 1, bound);
    }
  }

  /** No gap: what is selected up to any point is a prefix of what is selected in the whole log. */
  lemma {:induction false} SelectionIsContiguous(log: seq<Entry>, cut: nat, bound: Option<Mark>)
    requires cut <= |log|
    ensures Selected(log[..cut], bound) <= Selected(log, bound)
  {
    if cut < |log| {
      assert log[..|log| - 1][..cut] == log[..cut];
      SelectionIsContiguous(log[..|log| - 1], cut, bound);
    } else {
      assert log[..cut] == log;
    }
  }

  /** No duplicate, nothing unwanted, nothing wanted left out. */
  lemma {:induction false} SelectionIsExact(log: seq<Entry>, bound: Option<Mark>)
    requires Sorted(log)
    ensures Sorted(Selected(log, bound))
    ensures forall entry :: entry in Selected(log, bound) <==> entry in log && Wanted(entry, bound)
  {
    if log != [] {
      var before, last := log[..|log| - 1], log[|log| - 1];
      SelectionIsExact(before, bound);
      assert log == before + [last];
      assert forall i | 0 <= i < |before| :: before[i].mark.Before(last.mark);
      var chosen := Selected(before, bound);
      forall i | 0 <= i < |chosen|
        ensures chosen[i].mark.Before(last.mark)
      {
        assert chosen[i] in before;
      }
    }
  }

  /** A client that subscribed at the end of an empty log. */
  method SubscribedAtEnd() returns (client: Subscription)
    ensures fresh(client) && client.Valid([]) && client.delivered == [] && client.retryEnabled
    ensures client.initialStart == FromEnd && client.start == FromEnd
    ensures client.stream == Some(Feed(0, None)) && client.begun == Some(0)
  {
    client := new Subscription(Some(1), FromEnd, []);
    client.Attach([], OpenFeed([], client.start));
  }

  /** Its stream drops after an event was appended that the stream had still to send. */
  method DroppedBefore(client: Subscription, entry: Entry)
    requires client.Valid([]) && client.delivered == [] && client.retryEnabled
    requires client.initialStart == FromEnd && client.start == FromEnd
    requires client.stream == Some(Feed(0, None)) && client.begun == Some(0) && entry.matches
    modifies client
    ensures client.Valid([entry]) && client.delivered == [] && client.Lost([entry]) == []
    ensures client.stream.None? && client.start == FromEnd && client.begun == Some(0) && client.origin == 0
    ensures NextSent([entry], Feed(0, None), 0)
  {
    var feed := client.stream.value;
    client.stream := None;
    client.StaysConsistent([], [entry]);
    StaysAligned([], [entry], feed, client.origin, client.cut, None);
    var dropped := client.React([entry], feed, Dropped(Unavailable));
    assert [entry][0..0] == [];
  }

  /**
   A run of the client that loses an event: it subscribes at the end of an empty log,
   one event is appended, the stream drops before handing it out, and the
   resubscription skips it.
   */
  method EndForgetsUntilFirstEvent(entry: Entry) returns (client: Subscription)
    requires entry.matches
    ensures client.Valid([entry]) && client.initialStart == FromEnd && client.stream.Some?
    ensures client.Lost([entry]) == [entry] && client.delivered == []
    ensures !Sends([entry], client.stream.value, 0)
  {
    client := SubscribedAtEnd();
    DroppedBefore(client, entry);
    client.Attach([entry], OpenFeed([entry], client.start));
    assert [entry][0..1] == [entry] && [entry][..0] == [];
    assert Selected([entry], None) == [entry];
  }
}
