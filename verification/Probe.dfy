/** The probe that decides whether an S3-compatible server really enforces create-only writes. */
module Probe {
  import opened Outcomes

  /** A server that either honours the precondition or silently overwrites. A call that fails may
      still have taken effect; `faults` counts such calls. */
  class ObjectServer {
    const enforces: bool
    var objects: map<string, string>
    ghost var faults: nat

    constructor (enforces: bool)
      ensures this.enforces == enforces && objects == map[] && faults == 0
    {
      this.enforces, objects, faults := enforces, map[], 0;
    }

    method Write(key: string, body: string, createOnly: bool) returns (err: Option<BackendError>)
      modifies this
      ensures err.None? || err in {Some(PreconditionFailed), Some(OtherFailure)}
      ensures faults == old(faults) + if err == Some(OtherFailure) then 1 else 0
      ensures err == Some(PreconditionFailed) ==> createOnly && enforces && key in old(objects)
      ensures err.None? ==> !(createOnly && enforces && key in old(objects))
      ensures match err
              case None => objects == old(objects)[key := body]
              case Some(PreconditionFailed) => objects == old(objects)
              case Some(_) => objects == old(objects) || objects == old(objects)[key := body]
    {
      var refused := createOnly && enforces && key in objects;
      var fails: bool := *;
      var lands: bool := *;
      if !refused && (!fails || lands) {
        objects := objects[key := body];
      }
      if fails {
        faults := faults + 1;
        return Some(OtherFailure);
      }
      return if refused then Some(PreconditionFailed) else None;
    }

    method Delete(key: string) returns (ok: bool)
      modifies this
      ensures faults == old(faults) + if ok then 0 else 1
      ensures objects == old(objects) - {key} || (!ok && objects == old(objects))
    {
      ok := *;
      var lands: bool := *;
      if ok || lands {
        objects := objects - {key};
      }
      if !ok {
        faults := faults + 1;
      }
    }
  }

  /** Write a short-lived key create-only, then again: only a refusal of the second counts. A
      server that overwrites never passes, whatever fails; without faults an enforcing one always
      does. The key is cleaned up either way and no other object is touched. */
  method ProbeCreateOnly(server: ObjectServer, key: string) returns (verified: bool)
    modifies server
    ensures verified ==> server.enforces
    ensures server.faults == old(server.faults) ==> (verified <==> server.enforces && key !in old(server.objects))
    ensures server.objects - {key} == old(server.objects) - {key}
    ensures key in server.objects ==> server.faults > old(server.faults)
  {
    var first := server.Write(key, "", true);
    var second: Option<BackendError> := None;
    if first.None? {
      second := server.Write(key, "", true);
    }
    verified := first.None? && second == Some(PreconditionFailed);
    var cleaned := server.Delete(key);
  }
}
