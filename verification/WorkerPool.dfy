/** The message handler's mutable state: the free worker ids and the task queues. */
module WorkerPool {
  import opened Bytes
  import opened Messages
  import opened Options
  import opened Pipeline

  class MsgHandler {
    const bind: bool
    const workerPoolSize: uint32
    const maxWorkerTaskLen: nat
    var freeWorkers: set<nat>
    var taskQueue: seq<seq<Request>>

    /** In bind mode the pool is as large as the connection limit and every id starts out free. */
    constructor (bind: bool, maxConn: nat, poolSize: uint32, maxWorkerTaskLen: nat)
      ensures this.bind == bind && this.maxWorkerTaskLen == maxWorkerTaskLen
      ensures workerPoolSize == if bind then maxConn % TWO_32 else poolSize
      ensures freeWorkers == if bind then Below(workerPoolSize) else {}
      ensures |taskQueue| == workerPoolSize && forall q <- taskQueue :: q == []
    {
      var size: uint32 := if bind then maxConn % TWO_32 else poolSize;
      var ids: set<nat> := {};
      if bind {
        var i: nat := 0;
        while i < size
          invariant i <= size && ids == Below(i)
        {
          ids := ids + {i};
          i := i + 1;
        }
      }
      this.bind, workerPoolSize, this.maxWorkerTaskLen := bind, size, maxWorkerTaskLen;
      freeWorkers := ids;
      taskQueue := seq(size, _ => []);
    }

    /** Hands out an id as the run model allows, and takes it off the free set if it came from there. */
    method UseWorker(connID: ConnId) returns (workerId: nat)
      modifies this`freeWorkers
      ensures freeWorkers == if bind then old(freeWorkers) - {workerId} else old(freeWorkers)
      ensures bind && old(freeWorkers) != {} ==> workerId in old(freeWorkers)
      ensures !(bind && old(freeWorkers) != {}) && workerPoolSize == 0 ==> workerId == 0
      ensures !(bind && old(freeWorkers) != {}) && workerPoolSize != 0 ==>
                workerId < workerPoolSize && (connID - workerId) % workerPoolSize == 0
      ensures forall cfg: Config, s: State {:trigger MayGet(cfg, s, connID, workerId)} |
                cfg.bind == bind && 0 < cfg.poolSize == workerPoolSize && s.free == old(freeWorkers) ::
                MayGet(cfg, s, connID, workerId)
    {
      if bind && freeWorkers != {} {
        var k :| k in freeWorkers;
        freeWorkers := freeWorkers - {k};
        return k;
      }
      if workerPoolSize == 0 {
        workerId := 0;
      } else {
        workerId := connID % workerPoolSize;
        ModulusExactly(connID, workerId, workerPoolSize);
      }
    }

    method FreeWorker(workerId: nat)
      modifies this`freeWorkers
      ensures freeWorkers == if bind then old(freeWorkers) + {workerId} else old(freeWorkers)
    {
      if bind {
        freeWorkers := freeWorkers + {workerId};
      }
    }

    /** Puts a request at the end of its worker's queue; when that is full the caller has to wait. */
    method SendMsgToTaskQueue(workerId: nat, request: Request) returns (sent: bool)
      requires workerId < |taskQueue|
      modifies this`taskQueue
      ensures sent <==> |old(taskQueue)[workerId]| < maxWorkerTaskLen
      ensures taskQueue == if sent then old(taskQueue)[workerId := old(taskQueue)[workerId] + [request]]
                           else old(taskQueue)
    {
      sent := |taskQueue[workerId]| < maxWorkerTaskLen;
      if sent {
        taskQueue := taskQueue[workerId := taskQueue[workerId] + [request]];
      }
    }

    /** What a worker's loop does each turn: takes the oldest request, if there is one. */
    method TakeRequest(workerId: nat) returns (request: Option<Request>)
      requires workerId < |taskQueue|
      modifies this`taskQueue
      ensures |taskQueue| == |old(taskQueue)| && (request == None ==> taskQueue == old(taskQueue))
      ensures request == None <==> old(taskQueue)[workerId] == []
      ensures request.Some? ==> [request.value] + taskQueue[workerId] == old(taskQueue)[workerId]
      ensures forall v :: 0 <= v < |taskQueue| && v != workerId ==> taskQueue[v] == old(taskQueue)[v]
    {
      if taskQueue[workerId] == [] {
        return None;
      }
      request := Some(taskQueue[workerId][0]);
      taskQueue := taskQueue[workerId := taskQueue[workerId][1..]];
    }
  }
}
