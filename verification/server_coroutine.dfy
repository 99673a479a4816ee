/** The server coroutine in the form the program gives it: fields that the accept loop, the
    drain loop and the completion handlers update in place. Every method is one stretch of
    code between two suspension points and moves the state as the transition system says. */
module ServerCoroutine {
  import opened Cancellation
  import opened EchoServer
  import S = EchoSession

  class Server {
    const policy: Policy
    var phase: Phase
    var op: Op
    var nextId: nat
    var sessions: set<nat>
    var tasks: map<nat, S.Session>
    var cancel: CancelState
    var faulted: bool

    ghost function View(): State
      reads this
    {
      State(phase, op, nextId, sessions, tasks, cancel, faulted)
    }

    ghost predicate Valid()
      reads this
    {
      Inv(policy, View())
    }

    /** Runs up to the first suspension, inside `async_accept`. */
    constructor (policy: Policy)
      ensures Valid() && View() == INIT && this.policy == policy
    {
      this.policy := policy;
      phase, op, nextId, sessions, tasks := Accepting, Waiting, 0, {}, map[];
      cancel, faulted := Reset(ENABLE_TOTAL), false;
    }

    /** Emits `kinds` on the signals of all sessions, one after the other. */
    method Emit(kinds: Kinds)
      requires sessions <= tasks.Keys
      modifies this`tasks
      ensures View() == Forward(policy, old(View()), kinds)
    {
      var todo := sessions;
      while todo != {}
        invariant todo <= sessions <= tasks.Keys
        invariant tasks.Keys == old(tasks.Keys)
        invariant forall id :: id in tasks ==>
                    tasks[id] == if id in sessions && id !in todo then S.Notify(policy, old(tasks)[id], kinds)
                                 else old(tasks)[id]
        decreases |todo|
      {
        var id :| id in todo;
        tasks := tasks[id := S.Notify(policy, tasks[id], kinds)];
        todo := todo - {id};
      }
      assert tasks == Forward(policy, old(View()), kinds).tasks;
    }

    /** A signal handler emits on the server's cancellation slot. */
    method OnSignal(signal: Signal)
      requires Valid()
      modifies this`cancel, this`op
      ensures Valid() && View() == Step(policy, old(View()), Request(signal))
    {
      StepKeepsInv(policy, View(), Request(signal));
      if phase != Returned {
        var accepted := KindsOf(signal).And(cancel.filter);
        cancel := cancel.Emit(policy, KindsOf(signal));
        if op == Waiting && accepted.Any() {
          op := Ready(false);
        }
      }
    }

    /** The accept loop, from the completion of `async_accept` to the next suspension. */
    method ResumeAfterAccept()
      requires Valid() && phase == Accepting && op.Ready?
      modifies this
      ensures Valid() && View() == Step(policy, old(View()), Resume)
    {
      ghost var before := View();
      var failed := !op.ok;
      if !failed {
        AddSession();
      }
      ghost var present := View();
      assert present == if failed then before else Spawn(before);
      if cancel.recorded == TOTAL {
        Emit(cancel.recorded);
        cancel, op := Reset(ENABLE_TOTAL), Waiting;
      } else if failed || cancel.recorded.Any() {
        Emit(cancel.recorded);
        WaitForSessions();
      } else {
        cancel, op := Reset(ENABLE_TOTAL), Waiting;
      }
      StepKeepsInv(policy, before, Resume);
    }

    /** Spawns the session of an accepted connection and stores its signal, under an id that no
        session has: no other session or signal is displaced. */
    method AddSession()
      requires nextId !in tasks
      modifies this`nextId, this`sessions, this`tasks
      ensures View() == Spawn(old(View())) && old(nextId) in sessions
      ensures forall id :: id in old(tasks) ==> id in tasks && tasks[id] == old(tasks)[id]
    {
      tasks := tasks[nextId := S.FRESH];
      sessions := sessions + {nextId};
      nextId := nextId + 1;
    }

    /** The drain loop, from the completion of `async_receive` to the next suspension. */
    method ResumeAfterReceive()
      requires Valid() && phase == Draining && op.Ready?
      modifies this
      ensures Valid() && View() == Step(policy, old(View()), Resume)
    {
      StepKeepsInv(policy, View(), Resume);
      if cancel.recorded.Any() {
        Emit(cancel.recorded);
      }
      WaitForSessions();
    }

    /** The test of the drain loop, and the receive if there is something to wait for. */
    method WaitForSessions()
      modifies this`phase, this`op, this`cancel
      ensures View() == AwaitDrain(old(View()))
      ensures phase == Returned <==> sessions == {}
    {
      if sessions == {} {
        phase := Returned;
      } else {
        phase, cancel, op := Draining, Reset(ENABLE_TERMINAL), Waiting;
      }
    }

    /** The completion handler of session `id`. It is never called on a dead frame. */
    method OnSessionCompleted(id: nat)
      requires Valid() && id in tasks && tasks[id].stage.Finished?
      modifies this
      ensures Valid() && View() == Step(policy, old(View()), Completed(id))
      ensures old(phase) != Returned && id !in sessions
    {
      StepKeepsInv(policy, View(), Completed(id));
      faulted := faulted || phase == Returned;
      sessions := sessions - {id};
      tasks := tasks - {id};
      if phase == Draining && op == Waiting {
        op := Ready(true);
      }
    }
  }
}
