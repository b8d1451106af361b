/** The session registry of adapter.rs as it updates its table in place. */
module SessionRegistry {
  import opened Basics
  import T = SessionTable

  type Binding = string

  /** One open session. `engineHeld` stands for the engine it owns. */
  class Session {
    const identity: int
    const capability: T.Capability
    const binding: Binding
    var retired: bool
    var engineHeld: bool

    constructor (identity: int, capability: T.Capability, binding: Binding)
      ensures this.identity == identity && this.capability == capability && this.binding == binding
      ensures !retired && engineHeld
    {
      this.identity, this.capability, this.binding := identity, capability, binding;
      retired, engineHeld := false, true;
    }

    function Entry(): T.Entry<Binding> {
      T.Entry(identity, capability, binding)
    }

    /** Refuses further work, and releases the engine unless a call holds it. */
    method Retire(engineBusy: bool)
      modifies this
      ensures retired && engineHeld == (old(engineHeld) && engineBusy)
    {
      retired := true;
      if !engineBusy {
        engineHeld := false;
      }
    }
  }

  class Registry {
    var open: seq<Session>
    var next: int

    ghost function View(): T.Table<Binding>
      reads this
    {
      T.Table(seq(|open|, i requires 0 <= i < |open| reads this => open[i].Entry()), next)
    }

    /** A table that reports a session always has its engine, not yet retired. */
    ghost predicate Valid()
      reads this, open
    {
      T.Inv(View()) && forall s :: s in open ==> !s.retired && s.engineHeld
    }

    constructor ()
      ensures Valid() && View() == T.Empty()
    {
      open, next := [], 1;
    }

    method Find(identity: int) returns (p: nat)
      ensures p == T.Position(View().open, identity)
    {
      p := 0;
      while p < |open| && open[p].identity != identity
        invariant p <= |open|
        invariant forall i :: 0 <= i < p ==> open[i].identity != identity
      {
        p := p + 1;
      }
      FirstPosition(View().open, identity, p);
    }

    method Allocate() returns (r: Result<int, T.Refusal>)
      requires Valid()
      modifies this`next
      ensures match T.AllocateRefusal(old(View()))
              case Some(refusal) => r == Err(refusal) && next == old(next)
              case None => r == Ok(old(next)) && next == old(next) + 1
      ensures open == old(open)
    {
      if |open| >= T.MAX_OPEN_SESSIONS {
        return Err(T.SessionsExhausted);
      }
      if next == T.MAX_IDENTITY {
        return Err(T.IdentitiesExhausted);
      }
      r := Ok(next);
      next := next + 1;
    }

    method Open(capability: T.Capability, request: T.OpenRequest<Binding>, engineStarts: bool)
      returns (r: Result<T.Entry<Binding>, T.Refusal>)
      requires Valid()
      modifies this
      ensures Valid()
      ensures (View(), r) == T.Open(old(View()), capability, request, engineStarts)
      ensures r.Ok? ==> |open| == |old(open)| + 1 && open[..|old(open)|] == old(open) && fresh(open[|old(open)|])
      ensures r.Err? ==> open == old(open)
    {
      if request.capability != capability {
        return Err(T.CapabilityMismatch);
      }
      if request.context.violatedBound.Some? {
        return Err(T.Bounded(request.context.violatedBound.value));
      }
      if !request.context.pathsNamed {
        return Err(T.InvalidContext);
      }
      ghost var before := View();
      var identity := Allocate();
      if identity.Err? {
        return Err(identity.error);
      }
      if !engineStarts {
        r := Err(T.InvalidContext);
        assert View() == T.Open(before, capability, request, engineStarts).0;
        T.StepKeepsInv(before, T.OpOpen(capability, request, engineStarts));
        return;
      }
      var session := new Session(identity.value, capability, request.binding);
      open := open + [session];
      r := Ok(session.Entry());
      assert View().open == before.open + [session.Entry()];
      T.StepKeepsInv(before, T.OpOpen(capability, request, engineStarts));
    }

    method Remove(p: nat) returns (session: Session)
      requires Valid() && p < |open|
      modifies this`open
      ensures session == old(open)[p] && open == T.RemoveAt(old(open), p)
      ensures View().open == T.RemoveAt(old(View()).open, p)
      ensures session !in open
    {
      session := open[p];
      forall i, j | 0 <= i < j < |open| ensures open[i] != open[j] {
        assert View().open[i].identity < View().open[j].identity;
      }
      open := T.RemoveAt(open, p);
      assert View().open == T.RemoveAt(old(View()).open, p);
    }

    /** Retires one session, unless the request names another binding. */
    method Close(identity: int, binding: Binding, engineBusy: bool)
      returns (r: Result<T.Closed<Binding>, T.Refusal>)
      requires Valid()
      modifies this`open, set s | s in open && s.identity == identity
      ensures Valid()
      ensures (View(), r) == T.Close(old(View()), identity, binding)
      ensures forall s :: s in old(open) && s !in open ==>
        s.identity == identity && s.retired && s.engineHeld == engineBusy
      ensures forall s :: s in open ==> s in old(open)
    {
      ghost var before := View();
      if !(0 < identity < next) {
        return Err(T.UnknownHandle);
      }
      var p := Find(identity);
      if p == |open| {
        return Ok(T.Closed(identity, false, None));
      }
      if open[p].binding != binding {
        return Err(T.BindingMismatch);
      }
      var session := Remove(p);
      session.Retire(engineBusy);
      r := Ok(T.Closed(identity, true, Some(session.binding)));
      T.StepKeepsInv(before, T.OpClose(identity, binding));
    }

    /** Retires a session whose answer never reached the caller that would own it. */
    method Abandon(identity: int, engineBusy: bool) returns (retired: bool)
      requires Valid()
      modifies this`open, set s | s in open && s.identity == identity
      ensures Valid()
      ensures (View(), retired) == T.Abandon(old(View()), identity)
      ensures forall s :: s in old(open) && s !in open ==>
        s.identity == identity && s.retired && s.engineHeld == engineBusy
      ensures forall s :: s in open ==> s in old(open)
    {
      ghost var before := View();
      var p := Find(identity);
      if p == |open| {
        return false;
      }
      var session := Remove(p);
      session.Retire(engineBusy);
      retired := true;
      T.StepKeepsInv(before, T.OpAbandon(identity));
    }
  }

  lemma {:induction false} FirstPosition(open: seq<T.Entry<Binding>>, identity: int, p: nat)
    requires p <= |open| && (p < |open| ==> open[p].identity == identity)
    requires forall i :: 0 <= i < p ==> open[i].identity != identity
    ensures T.Position(open, identity) == p
  {
    if p > 0 {
      FirstPosition(open[1..], identity, p - 1);
    }
  }
}
