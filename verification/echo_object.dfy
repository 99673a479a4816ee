/** The echo server as an object: a member map of session promises that the accept loop, the
    session tasks and the destructor update in place. */
module EchoObject {
  import opened PromiseSessions

  class Server {
    var mapAlive: bool
    var promises: set<nat>
    var tasks: map<nat, Task>
    var acceptLoop: Loop
    var nextId: nat
    var faulted: bool

    ghost function View(): State
      reads this
    {
      State(mapAlive, promises, tasks, acceptLoop, nextId, faulted)
    }

    ghost predicate Valid()
      reads this
    {
      Inv(MapInObject, View())
    }

    /** Spawns the accept loop. */
    constructor ()
      ensures Valid() && View() == INIT
    {
      mapAlive, promises, tasks, nextId, faulted := true, {}, map[], 0, false;
      acceptLoop := Accepting(Waiting, false);
    }

    /** Destroys the map, one promise after the other; each cancels its task. */
    method DestroyMap()
      requires promises <= tasks.Keys
      modifies this`mapAlive, this`promises, this`tasks
      ensures View() == ClearMap(old(View()))
    {
      ghost var owned, before := promises, tasks;
      while promises != {}
        invariant promises <= owned <= tasks.Keys
        invariant tasks.Keys == before.Keys
        invariant forall id :: id in tasks ==>
                    tasks[id] == if id in owned && id !in promises then before[id].(cancelled := true) else before[id]
        decreases |promises|
      {
        var id :| id in promises;
        tasks := tasks[id := tasks[id].(cancelled := true)];
        promises := promises - {id};
      }
      mapAlive := false;
      assert tasks == ClearMap(old(View())).tasks;
    }

    /** The destructor: cancels the accept loop, then destroys the members. */
    method Destroy()
      requires Valid() && mapAlive
      modifies this
      ensures Valid() && View() == Step(MapInObject, old(View()), Stop)
      ensures forall id :: id in tasks ==> tasks[id].cancelled
    {
      StepKeepsInv(MapInObject, View(), Stop);
      if acceptLoop.Accepting? {
        acceptLoop := Accepting(if acceptLoop.op.Waiting? then Ready(false) else acceptLoop.op, true);
      }
      DestroyMap();
    }

    /** The accept loop, from the completion of `async_accept` to its next suspension. It looks
        at its cancellation state before it touches the object. */
    method ResumeRun()
      requires Valid() && acceptLoop.Accepting? && acceptLoop.op.Ready?
      modifies this
      ensures Valid() && View() == Step(MapInObject, old(View()), ResumeLoop)
      ensures !old(mapAlive) ==> promises == old(promises) && tasks == old(tasks)
    {
      StepKeepsInv(MapInObject, View(), ResumeLoop);
      if !acceptLoop.op.ok || acceptLoop.cancelled {
        acceptLoop := Over;
      } else {
        faulted := faulted || !mapAlive;
        tasks := tasks[nextId := Echoing(false)];
        promises := promises + {nextId};
        nextId := nextId + 1;
        acceptLoop := Accepting(Waiting, false);
      }
    }

    /** A session task after its echo loop has ended. */
    method ResumeSession(id: nat)
      requires Valid() && id in tasks && tasks[id].Done?
      modifies this
      ensures Valid() && View() == Step(MapInObject, old(View()), ResumeTask(id))
      ensures !old(mapAlive) ==> promises == old(promises)
    {
      StepKeepsInv(MapInObject, View(), ResumeTask(id));
      var cancelled := tasks[id].cancelled;
      tasks := tasks - {id};
      if !cancelled {
        faulted := faulted || !mapAlive;
        promises := promises - {id};
      }
    }
  }
}
