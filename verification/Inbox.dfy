/** The Inbox object of internal/managers: each method is one critical section of InboxModel. */
module ManagerInbox {
  import opened Basics
  import opened InboxModel

  /** How one turn of the waiting loop inside Next ends. */
  datatype Attempt = NotSession | Got(event: Event) | Elapsed | KeepWaiting

  /** The completion handle of a delivery. */
  class Delivered {
    var done: bool
    var completed: bool

    constructor ()
      ensures !done && !completed
    {
      done, completed := false, false;
    }

    /** The first call decides; later ones change nothing. */
    method Settle(ok: bool)
      modifies this
      ensures done && completed == if old(done) then old(completed) else ok
    {
      if !done {
        completed := ok;
        done := true;
      }
    }
  }

  class Inbox {
    var buf: seq<Event>
    var tickQueued: bool
    var instanceID: string
    var checkedOut: Option<Event>
    var parked: nat

    function Data(): Core
      reads this
    {
      Core(buf, tickQueued, instanceID, checkedOut, parked)
    }

    constructor ()
      ensures Data() == INIT.core
    {
      buf, tickQueued, instanceID, checkedOut, parked := [], false, "", None, 0;
    }

    /** Queues an event; the watchdog is armed when a live instance is neither waiting nor working. */
    method Push(e: Event) returns (arm: bool)
      modifies this
      ensures Data() == Pushed(old(Data()), e)
      ensures arm <==> instanceID != "" && parked == 0 && checkedOut.None?
      ensures buf == old(buf) + [e] && tickQueued == (old(tickQueued) || e.kind.Tick?)
      ensures instanceID == old(instanceID) && checkedOut == old(checkedOut) && parked == old(parked)
    {
      buf := buf + [e];
      if e.kind.Tick? {
        tickQueued := true;
      }
      arm := parked == 0 && checkedOut.None? && instanceID != "";
    }

    method BindInstance(instance: string) returns (stale: Option<Event>)
      modifies this
      ensures Data() == Bound(old(Data()), instance) && stale == old(checkedOut)
      ensures instanceID == instance && checkedOut.None?
      ensures buf == old(buf) && tickQueued == old(tickQueued) && parked == old(parked)
    {
      stale := checkedOut;
      instanceID, checkedOut := instance, None;
    }

    method UnbindInstance() returns (stale: Option<Event>)
      modifies this
      ensures Data() == Bound(old(Data()), "") && stale == old(checkedOut)
      ensures instanceID == "" && checkedOut.None?
      ensures buf == old(buf) && tickQueued == old(tickQueued) && parked == old(parked)
    {
      stale := checkedOut;
      instanceID, checkedOut := "", None;
    }

    /** The first section of Next: the checked-out event, if any, is the caller's finished work. */
    method BeginNext(instance: string) returns (ok: bool, done: Option<Event>)
      modifies this
      ensures ok == Current(old(Data()), instance)
      ensures Data() == if ok then Begun(old(Data())) else old(Data())
      ensures done == if ok then old(checkedOut) else None
      ensures ok <==> instance != "" && instance == old(instanceID)
      ensures parked == (if ok then old(parked) + 1 else old(parked))
      ensures checkedOut == (if ok then None else old(checkedOut))
      ensures buf == old(buf) && tickQueued == old(tickQueued) && instanceID == old(instanceID)
    {
      if instance == "" || instanceID != instance {
        return false, None;
      }
      parked := parked + 1;
      done := None;
      if checkedOut.Some? {
        done := checkedOut;
        checkedOut := None;
      }
      return true, done;
    }

    /** One turn of the waiting loop; `over` says the deadline passed or the caller went away. */
    method TryNext(instance: string, over: bool) returns (r: Attempt)
      requires parked > 0
      modifies this
      ensures r.NotSession? <==> old(instanceID) != instance
      ensures r.Got? <==> old(instanceID) == instance && old(buf) != []
      ensures r.Elapsed? <==> old(instanceID) == instance && old(buf) == [] && over
      ensures r.Got? ==> r.event == old(buf)[0] && Data() == Popped(old(Data()))
      ensures r.NotSession? || r.Elapsed? ==> Data() == Left(old(Data()))
      ensures r.KeepWaiting? ==> Data() == old(Data())
      ensures r.Got? ==>
        && old(buf) == [r.event] + buf && checkedOut == Some(r.event)
        && tickQueued == (old(tickQueued) && !r.event.kind.Tick?)
      ensures !r.Got? ==> buf == old(buf) && checkedOut == old(checkedOut) && tickQueued == old(tickQueued)
      ensures instanceID == old(instanceID) && parked == if r.KeepWaiting? then old(parked) else old(parked) - 1
    {
      if instanceID != instance {
        parked := parked - 1;
        return NotSession;
      }
      if |buf| > 0 {
        var e := buf[0];
        buf := buf[1..];
        if e.kind.Tick? {
          tickQueued := false;
        }
        checkedOut := Some(e);
        parked := parked - 1;
        return Got(e);
      }
      if over {
        parked := parked - 1;
        return Elapsed;
      }
      return KeepWaiting;
    }
  }
}
