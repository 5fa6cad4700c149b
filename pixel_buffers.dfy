/** The pixel-buffer ring as both strategies run it: allocation, the in-place rotation,
    deletion, and the read-rotate-copy sequence of `Swap`. The two C# classes carry
    identical copies of this code; here it is written once and each class calls it. */
module PixelBuffers {
  import opened Common
  import opened Graphics
  import opened Pipeline

  /** The allocation loop of `Initialize`: `count` new buffers of `size` bytes, in order. */
  method AllocatePixelBuffers(gl: Gl, count: nat, size: int) returns (buffers: array<int>)
    requires gl.Valid()
    modifies gl, gl.log
    ensures fresh(buffers) && buffers.Length == count
    ensures forall i :: 0 <= i < count ==> buffers[i] == old(gl.state.nextName) + i
    ensures gl.Valid() && gl.wgl == old(gl.wgl)
    ensures gl.state == Allocate(old(gl.state), count, size)
    ensures gl.log.events == old(gl.log.events) + AllocateEffects(old(gl.state.nextName), count, size)
  {
    buffers := new int[count];
    var i := 0;
    while i < count
      invariant 0 <= i <= count
      invariant gl.Valid() && gl.wgl == old(gl.wgl)
      invariant forall j :: 0 <= j < i ==> buffers[j] == old(gl.state.nextName) + j
      invariant gl.state == Allocate(old(gl.state), i, size)
      invariant gl.log.events == old(gl.log.events) + AllocateEffects(old(gl.state.nextName), i, size)
    {
      var pb := gl.GenBuffer();
      gl.BindPixelPackBuffer(pb);
      gl.BufferData(size);
      buffers[i] := pb;
      i := i + 1;
    }
  }

  /** The ring allocation of `Initialize` for a non-negative count: `count` distinct new
      buffers of `PixelBytes(width, height)` bytes, none written, then the pixel-pack
      binding reset. */
  method AllocateRing(gl: Gl, width: int, height: int, count: nat) returns (buffers: array<int>)
    requires gl.Valid()
    modifies gl, gl.log
    ensures gl.Valid() && gl.wgl == old(gl.wgl)
    ensures fresh(buffers) && buffers.Length == count && Distinct(buffers[..])
    ensures forall i :: 0 <= i < count ==> buffers[i] == old(gl.state.nextName) + i
    ensures forall b :: b in buffers[..] ==>
      b in gl.state.sizes && gl.state.sizes[b] == PixelBytes(width, height) &&
      b in gl.state.contents && gl.state.contents[b] == None
    ensures gl.state == Allocate(old(gl.state), count, PixelBytes(width, height)).(packBuffer := 0)
    ensures gl.log.events == old(gl.log.events) +
      AllocateEffects(old(gl.state.nextName), count, PixelBytes(width, height)) + [BindPixelPackBuffer(0)]
  {
    var size := PixelBytes(width, height);
    AllocateProperties(gl.state, count, size);
    buffers := AllocatePixelBuffers(gl, count, size);
    gl.BindPixelPackBuffer(0);
  }

  /** `RotatePixelBuffers`: shifts every name one slot to the front, in place. */
  method RotatePixelBuffers(buffers: array<int>)
    requires buffers.Length >= 1
    modifies buffers
    ensures buffers[..] == RotateLeft(old(buffers[..]))
  {
    var fst := buffers[0];
    var i := 1;
    while i < buffers.Length
      invariant 1 <= i <= buffers.Length
      invariant forall k :: 0 <= k < i - 1 ==> buffers[k] == old(buffers[k + 1])
      invariant forall k :: i - 1 <= k < buffers.Length ==> buffers[k] == old(buffers[k])
    {
      buffers[i - 1] := buffers[i];
      i := i + 1;
    }
    buffers[buffers.Length - 1] := fst;
  }

  /** The `foreach` of `Dispose(true)`: `GL.DeleteBuffer` on every name, in ring order. */
  method DeletePixelBuffers(gl: Gl, buffers: array<int>)
    requires gl.Valid()
    modifies gl, gl.log
    ensures gl.Valid() && gl.wgl == old(gl.wgl)
    ensures gl.state == DeleteAll(old(gl.state), buffers[..])
    ensures gl.log.events == old(gl.log.events) + DeleteEffects(buffers[..])
  {
    var i := 0;
    while i < buffers.Length
      invariant 0 <= i <= buffers.Length
      invariant gl.Valid() && gl.wgl == old(gl.wgl)
      invariant gl.state == DeleteAll(old(gl.state), buffers[..i])
      invariant gl.log.events == old(gl.log.events) + DeleteEffects(buffers[..i])
    {
      assert buffers[..i + 1][..i] == buffers[..i];
      assert DeleteEffects(buffers[..i + 1]) == DeleteEffects(buffers[..i]) + [DeleteBuffer(buffers[i])];
      gl.DeleteBuffer(buffers[i]);
      i := i + 1;
    }
    assert buffers[..i] == buffers[..];
  }

  /** What `Dispose(disposing)` raises: only the explicit path touches the ring, and a ring
      that was never allocated is a null reference there. */
  function DisposeOutcome(disposed: bool, disposing: bool, initialised: bool): Outcome
  {
    if !disposed && disposing && !initialised then Fail(NullReference) else Ok
  }

  /** What `Swap` raises, if anything: a null ring before `Initialize`, an empty ring
      when it was initialised with no buffers. */
  function SwapOutcome(initialised: bool, count: int): Outcome
  {
    if !initialised then Fail(NullReference)
    else if count == 0 then Fail(IndexOutOfRange)
    else Ok
  }

  /** The state change of one `Swap` into `target` with the ring `buffers` and the flag
      value `hasRendered` it started with. On failure only the framebuffer binding of
      line 1 has happened. On success the ring, the buffer contents and what the target
      receives are those of `Step`, the calls are `SwapEffects`, the whole target is
      marked dirty and the target is left unlocked. */
  twostate predicate SwapCompleted(gl: Gl, buffers: array?<int>, hasRendered: bool, framebuffer: int,
                                   target: ImageSource, outcome: Outcome)
    reads gl, gl.log, target, buffers
  {
    outcome == SwapOutcome(buffers != null, if buffers == null then 0 else buffers.Length) &&
    gl.wgl == old(gl.wgl) &&
    (outcome.Fail? ==>
      gl.state == old(gl.state).(framebuffer := framebuffer) &&
      gl.log.events == old(gl.log.events) + [BindFramebuffer(framebuffer)] &&
      (buffers != null ==> buffers[..] == old(buffers[..])) &&
      target.backBuffer == old(target.backBuffer) && target.dirty == old(target.dirty) &&
      target.locked == old(target.locked)) &&
    (outcome.Ok? ==>
      buffers != null && buffers.Length >= 1 &&
      var (after, delivered) := Step(RingState(old(buffers[..]), old(gl.state.contents), hasRendered),
                                     ColorOf(old(gl.state), framebuffer));
      buffers[..] == after.ring &&
      gl.state == old(gl.state).(contents := after.contents, framebuffer := 0, packBuffer := 0) &&
      target.backBuffer == delivered &&
      target.dirty == old(target.dirty) + [Rect(0, 0, target.pixelWidth, target.pixelHeight)] &&
      !target.locked &&
      gl.log.events == old(gl.log.events) +
        SwapEffects(framebuffer, old(buffers[0]), buffers[0], target.pixelWidth, target.pixelHeight))
  }

  /** Lines 2-4 of `Swap`: start the transfer of the bound framebuffer's colour
      attachment into `first`, then unbind the framebuffer. */
  method IssueRead(gl: Gl, first: int, width: int, height: int)
    requires gl.Valid()
    modifies gl, gl.log
    ensures gl.Valid() && gl.wgl == old(gl.wgl)
    ensures gl.state == old(gl.state).(contents := Write(old(gl.state.contents), first,
                                                         Some(ColorOf(old(gl.state), old(gl.state.framebuffer)))),
                                       packBuffer := first, framebuffer := 0)
    ensures gl.log.events == old(gl.log.events) +
      [BindPixelPackBuffer(first), ReadBuffer(ColorAttachment0), ReadPixels(Rect(0, 0, width, height)), BindFramebuffer(0)]
  {
    gl.BindPixelPackBuffer(first);
    gl.ReadBuffer(ColorAttachment0);
    gl.ReadPixels(Rect(0, 0, width, height));
    gl.BindFramebuffer(0);
  }

  /** The copy step of `Swap`: map `buffer` and copy it into the locked target's back
      buffer, mark the whole target dirty, unlock, unmap, unbind. */
  method CopyToTarget(gl: Gl, buffer: int, target: ImageSource)
    requires gl.Valid() && target.log == gl.log
    modifies gl, gl.log, target
    ensures gl.Valid() && gl.wgl == old(gl.wgl)
    ensures gl.state == old(gl.state).(packBuffer := 0)
    ensures target.backBuffer == Lookup(old(gl.state.contents), buffer)
    ensures target.dirty == old(target.dirty) + [Rect(0, 0, target.pixelWidth, target.pixelHeight)]
    ensures !target.locked
    ensures gl.log.events == old(gl.log.events) +
      [BindPixelPackBuffer(buffer), LockBitmap, MapBuffer,
       CopyMemory(CopyLength(target.pixelWidth, target.pixelHeight)),
       AddDirtyRect(Rect(0, 0, target.pixelWidth, target.pixelHeight)),
       UnlockBitmap, UnmapBuffer, BindPixelPackBuffer(0)]
  {
    gl.BindPixelPackBuffer(buffer);
    target.Lock();
    var data := gl.MapBuffer();
    target.CopyIntoBackBuffer(data, CopyLength(target.pixelWidth, target.pixelHeight));
    target.AddDirtyRect(Rect(0, 0, target.pixelWidth, target.pixelHeight));
    target.Unlock();
    gl.UnmapBuffer();
    gl.BindPixelPackBuffer(0);
  }

  /** The body of `Swap` up to, not including, setting `_hasRenderedAFrame`. */
  method SwapPixelBuffers(gl: Gl, buffers: array?<int>, hasRendered: bool, framebuffer: int,
                          target: ImageSource) returns (outcome: Outcome)
    requires gl.Valid() && target.log == gl.log
    modifies gl, gl.log, target, buffers
    ensures gl.Valid()
    ensures SwapCompleted(gl, buffers, hasRendered, framebuffer, target, outcome)
  {
    gl.BindFramebuffer(framebuffer);
    if buffers == null {
      return Fail(NullReference);
    }
    if buffers.Length == 0 {
      return Fail(IndexOutOfRange);
    }
    ghost var step := Step(RingState(buffers[..], old(gl.state.contents), hasRendered),
                           ColorOf(old(gl.state), framebuffer));
    var first := buffers[0];
    IssueRead(gl, first, target.pixelWidth, target.pixelHeight);
    if hasRendered {
      RotatePixelBuffers(buffers);
    }
    assert buffers[..] == step.0.ring;
    assert gl.state.contents == step.0.contents;
    CopyToTarget(gl, buffers[0], target);
    assert gl.log.events == old(gl.log.events) +
      SwapEffects(framebuffer, first, buffers[0], target.pixelWidth, target.pixelHeight);
    outcome := Ok;
  }
}
