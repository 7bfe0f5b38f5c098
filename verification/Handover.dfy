/**
  The release-once handle inside every admission lease: the first of release and
  handoff decides whether the release callback runs.
*/
module Handover {
  import opened Wrappers

  datatype HandleError = AlreadyReleased

  datatype HandleOp = DoRelease | DoHandoff

  class ReleaseHandle<C> {
    var released: bool
    var callback: Option<C>

    constructor (callback: Option<C>)
      ensures !released && this.callback == callback
    {
      released, this.callback := false, callback;
    }

    // Returns the callback to run once the handle's own lock is left.
    method Release() returns (call: Option<C>)
      modifies this
      ensures released
      ensures old(released) ==> call == None && callback == old(callback)
      ensures !old(released) ==> call == old(callback) && callback == None
    {
      if released {
        return None;
      }
      released := true;
      call := callback;
      callback := None;
    }

    // Transfers the duty to clean up; the callback is dropped.
    method Handoff() returns (r: Result<(), HandleError>)
      modifies this
      ensures released
      ensures r == if old(released) then Failure(AlreadyReleased) else Success(())
      ensures callback == if old(released) then old(callback) else None
    {
      if released {
        return Failure(AlreadyReleased);
      }
      released := true;
      callback := None;
      return Success(());
    }
  }

  /** Over any series of calls on a fresh handle the callback runs once if the
      first call is a release, and never otherwise. */
  method RunHandle<C>(callback: C, ops: seq<HandleOp>) returns (calls: seq<C>)
    ensures calls == if ops != [] && ops[0] == DoRelease then [callback] else []
  {
    var handle := new ReleaseHandle(Some(callback));
    calls := [];
    var i := 0;
    while i < |ops|
      invariant 0 <= i <= |ops|
      invariant i == 0 ==> !handle.released && handle.callback == Some(callback) && calls == []
      invariant i > 0 ==> handle.released && calls == if ops[0] == DoRelease then [callback] else []
    {
      if ops[i] == DoRelease {
        var call := handle.Release();
        calls := calls + if call.Some? then [call.value] else [];
      } else {
        var _ := handle.Handoff();
      }
      i := i + 1;
    }
  }
}
