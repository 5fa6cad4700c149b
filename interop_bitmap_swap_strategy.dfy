/** `InteropBitmapSwapStrategy`: the CPU-mediated strategy. It reads each rendered frame
    into a ring of pixel-pack buffers and copies the oldest pending one into a
    `WriteableBitmap`'s back buffer. */
module InteropBitmap {
  import opened Common
  import opened Graphics
  import opened Pipeline
  import opened PixelBuffers

  /** The calls `Dispose(disposing)` makes: the ring's deletions, on the explicit path of
      the first successful call only. */
  function DisposeEffects(disposed: bool, disposing: bool, ring: Option<seq<int>>): (r: seq<Effect>)
    ensures disposed || !disposing ==> r == []
    ensures r != [] ==> ring.Some? && r == DeleteEffects(ring.value)
  {
    if disposed || !disposing || ring.None? then [] else DeleteEffects(ring.value)
  }

  /** Whatever two `Dispose` calls are made in a row (explicit, from the finalizer, or one
      of each), no pixel buffer is deleted twice; and a call after a successful one does
      nothing at all. */
  lemma {:induction false} DisposeDeletesAtMostOnce(disposing1: bool, disposing2: bool, ring: seq<int>)
    requires Distinct(ring)
    ensures var after := DisposeOutcome(false, disposing1, true).Ok?;
      var e := DisposeEffects(false, disposing1, Some(ring)) + DisposeEffects(after, disposing2, Some(ring));
      after && DisposeEffects(after, disposing2, Some(ring)) == [] &&
      DisposeOutcome(after, disposing2, true) == Ok &&
      forall i, j :: 0 <= i < j < |e| ==> e[i] != e[j]
  {
    var e := DisposeEffects(false, disposing1, Some(ring));
    assert DisposeEffects(true, disposing2, Some(ring)) == [];
    forall i, j | 0 <= i < j < |e| ensures e[i] != e[j] {
      assert e[i] == DeleteBuffer(ring[i]) && e[j] == DeleteBuffer(ring[j]);
    }
  }

  class InteropBitmapSwapStrategy {
    var hasRenderedAFrame: bool
    var pixelBuffers: array?<int>
    var disposedValue: bool
    /** `GC.SuppressFinalize(this)` has been called. */
    var finalizeSuppressed: bool

    constructor ()
      ensures !hasRenderedAFrame && pixelBuffers == null && !disposedValue && !finalizeSuppressed
    {
      hasRenderedAFrame, pixelBuffers, disposedValue, finalizeSuppressed := false, null, false, false;
    }

    ghost function Ring(): Option<seq<int>>
      reads this, pixelBuffers
    {
      if pixelBuffers == null then None else Some(pixelBuffers[..])
    }

    /** Allocates `pixelBufferCount` new pixel-pack buffers of `4 * width * height` bytes
      (in 32-bit arithmetic), none yet written; a negative count is an overflow. */
    method Initialize(gl: Gl, width: int, height: int, pixelBufferCount: int) returns (outcome: Outcome)
      requires gl.Valid()
      modifies this, gl, gl.log
      ensures gl.Valid() && gl.wgl == old(gl.wgl)
      ensures hasRenderedAFrame == old(hasRenderedAFrame) && disposedValue == old(disposedValue)
      ensures finalizeSuppressed == old(finalizeSuppressed)
      ensures pixelBufferCount < 0 ==>
        outcome == Fail(Overflow) && pixelBuffers == old(pixelBuffers) &&
        gl.state == old(gl.state) && gl.log.events == old(gl.log.events)
      ensures pixelBufferCount >= 0 ==>
        outcome == Ok && pixelBuffers != null && fresh(pixelBuffers) &&
        pixelBuffers.Length == pixelBufferCount && Distinct(pixelBuffers[..]) &&
        (forall i :: 0 <= i < pixelBufferCount ==> pixelBuffers[i] == old(gl.state.nextName) + i) &&
        (forall b :: b in pixelBuffers[..] ==>
           b in gl.state.sizes && gl.state.sizes[b] == PixelBytes(width, height) &&
           b in gl.state.contents && gl.state.contents[b] == None) &&
        gl.state == Allocate(old(gl.state), pixelBufferCount, PixelBytes(width, height)).(packBuffer := 0) &&
        gl.log.events == old(gl.log.events) +
          AllocateEffects(old(gl.state.nextName), pixelBufferCount, PixelBytes(width, height)) +
          [BindPixelPackBuffer(0)]
    {
      if pixelBufferCount < 0 {
        return Fail(Overflow);
      }
      pixelBuffers := AllocateRing(gl, width, height, pixelBufferCount);
      outcome := Ok;
    }

    /** `Swap(int, WriteableBitmap)`: the ring step of `SwapCompleted`, after which a frame
      has been rendered. */
    method Swap(gl: Gl, frameBufferSource: int, target: ImageSource) returns (outcome: Outcome)
      requires gl.Valid() && target.log == gl.log && target.kind == WriteableBitmapKind
      modifies this, pixelBuffers, gl, gl.log, target
      ensures gl.Valid() && pixelBuffers == old(pixelBuffers)
      ensures SwapCompleted(gl, pixelBuffers, old(hasRenderedAFrame), frameBufferSource, target, outcome)
      ensures hasRenderedAFrame == (old(hasRenderedAFrame) || outcome.Ok?)
      ensures disposedValue == old(disposedValue) && finalizeSuppressed == old(finalizeSuppressed)
    {
      outcome := SwapPixelBuffers(gl, pixelBuffers, hasRenderedAFrame, frameBufferSource, target);
      if outcome.Ok? {
        hasRenderedAFrame := true;
      }
    }

    /** `ISwapStrategy.Swap(int, ImageSource)`: the cast to `WriteableBitmap` fails, changing
      nothing, on any other kind of image. */
    method SwapImageSource(gl: Gl, frameBufferSource: int, target: ImageSource) returns (outcome: Outcome)
      requires gl.Valid() && target.log == gl.log
      modifies this, pixelBuffers, gl, gl.log, target
      ensures gl.Valid() && pixelBuffers == old(pixelBuffers)
      ensures target.kind != WriteableBitmapKind ==>
        outcome == Fail(InvalidCast) && unchanged(this, gl, gl.log, target) &&
        (pixelBuffers != null ==> unchanged(pixelBuffers))
      ensures target.kind == WriteableBitmapKind ==>
        SwapCompleted(gl, pixelBuffers, old(hasRenderedAFrame), frameBufferSource, target, outcome) &&
        hasRenderedAFrame == (old(hasRenderedAFrame) || outcome.Ok?)
      ensures disposedValue == old(disposedValue) && finalizeSuppressed == old(finalizeSuppressed)
    {
      if target.kind != WriteableBitmapKind {
        return Fail(InvalidCast);
      }
      outcome := Swap(gl, frameBufferSource, target);
    }

    /** A new `width` x `height` Bgra32 `WriteableBitmap`. */
    method MakeTarget(log: EffectLog, width: int, height: int) returns (target: ImageSource)
      ensures fresh(target) && target.log == log && target.kind == WriteableBitmapKind
      ensures target.pixelWidth == width && target.pixelHeight == height && target.format == Bgra32
      ensures target.backBuffer == None && target.dirty == [] && !target.locked
    {
      target := new ImageSource.WriteableBitmap(log, width, height, Bgra32);
    }

    /** `Dispose(bool disposing)`: runs at most once (until it succeeds); deletes the ring
      only when `disposing`. */
    method DisposeCore(gl: Gl, disposing: bool) returns (outcome: Outcome)
      requires gl.Valid()
      modifies this, gl, gl.log
      ensures gl.Valid() && gl.wgl == old(gl.wgl)
      ensures pixelBuffers == old(pixelBuffers) && hasRenderedAFrame == old(hasRenderedAFrame)
      ensures finalizeSuppressed == old(finalizeSuppressed)
      ensures outcome == DisposeOutcome(old(disposedValue), disposing, pixelBuffers != null)
      ensures disposedValue == outcome.Ok?
      ensures gl.log.events == old(gl.log.events) + DisposeEffects(old(disposedValue), disposing, Ring())
      ensures gl.state == if !old(disposedValue) && disposing && pixelBuffers != null
                          then DeleteAll(old(gl.state), pixelBuffers[..]) else old(gl.state)
    {
      if !disposedValue {
        if disposing {
          if pixelBuffers == null {
            return Fail(NullReference);
          }
          DeletePixelBuffers(gl, pixelBuffers);
        }
        disposedValue := true;
      }
      outcome := Ok;
    }

    /** The finalizer: `Dispose(false)`. */
    method Finalize(gl: Gl) returns (outcome: Outcome)
      requires gl.Valid()
      modifies this, gl, gl.log
      ensures gl.Valid() && gl.wgl == old(gl.wgl) && pixelBuffers == old(pixelBuffers)
      ensures hasRenderedAFrame == old(hasRenderedAFrame) && finalizeSuppressed == old(finalizeSuppressed)
      ensures outcome == Ok && disposedValue
      ensures gl.state == old(gl.state) && gl.log.events == old(gl.log.events)
    {
      outcome := DisposeCore(gl, false);
    }

    /** `Dispose()`: `Dispose(true)`, then `GC.SuppressFinalize(this)`. */
    method Dispose(gl: Gl) returns (outcome: Outcome)
      requires gl.Valid()
      modifies this, gl, gl.log
      ensures gl.Valid() && gl.wgl == old(gl.wgl) && pixelBuffers == old(pixelBuffers)
      ensures hasRenderedAFrame == old(hasRenderedAFrame)
      ensures outcome == DisposeOutcome(old(disposedValue), true, pixelBuffers != null)
      ensures disposedValue == outcome.Ok? && finalizeSuppressed == (old(finalizeSuppressed) || outcome.Ok?)
      ensures gl.log.events == old(gl.log.events) + DisposeEffects(old(disposedValue), true, Ring())
      ensures gl.state == if !old(disposedValue) && pixelBuffers != null
                          then DeleteAll(old(gl.state), pixelBuffers[..]) else old(gl.state)
    {
      outcome := DisposeCore(gl, true);
      if outcome.Ok? {
        finalizeSuppressed := true;
      }
    }
  }

  /** The host's frame: bind the framebuffer, draw `frame`, swap into `target`; what the
      target shows is what `Step` delivers. */
  method DrawAndSwap(gl: Gl, strategy: InteropBitmapSwapStrategy, framebuffer: int, target: ImageSource,
                     frame: Frame) returns (shown: Option<Frame>)
    requires gl.Valid() && target.log == gl.log && target.kind == WriteableBitmapKind
    requires strategy.pixelBuffers != null && strategy.pixelBuffers.Length >= 1
    modifies gl, gl.log, target, strategy, strategy.pixelBuffers
    ensures gl.Valid() && strategy.pixelBuffers == old(strategy.pixelBuffers)
    ensures var step := Step(RingState(old(strategy.pixelBuffers[..]), old(gl.state.contents),
                                       old(strategy.hasRenderedAFrame)), frame);
      RingState(strategy.pixelBuffers[..], gl.state.contents, strategy.hasRenderedAFrame) == step.0 &&
      shown == step.1
  {
    gl.BindFramebuffer(framebuffer);
    gl.Draw(frame);
    assert ColorOf(gl.state, framebuffer) == frame;
    var outcome := strategy.Swap(gl, framebuffer, target);
    shown := target.backBuffer;
  }

  /** Two buffers, 256 x 256: frames 1, 2 and 3 are drawn and swapped in turn. The target
      shows frame 1 after the first swap, a buffer never written after the second, and
      frame 2 after the third. */
  method TwoBufferScenario() returns (first: Option<Frame>, second: Option<Frame>, third: Option<Frame>)
    ensures first == Some(Image(1)) && second == None && third == Some(Image(2))
  {
    var log := new EffectLog();
    var gl := new Gl(log, FramebufferComplete);
    var framebuffer := gl.GenFramebuffer();
    var strategy := new InteropBitmapSwapStrategy();
    var outcome := strategy.Initialize(gl, 256, 256, 2);
    var target := strategy.MakeTarget(log, 256, 256);
    ghost var init := RingState(strategy.pixelBuffers[..], gl.state.contents, false);
    assert FreshRing(init, 2);
    ghost var frames := [Image(1), Image(2), Image(3)];
    assert frames[..0] == [] && frames[..1] == [Image(1)] && frames[..2] == [Image(1), Image(2)];

    first := DrawAndSwap(gl, strategy, framebuffer, target, Image(1));
    assert first == Delivery(init, frames[..1]);
    second := DrawAndSwap(gl, strategy, framebuffer, target, Image(2));
    assert second == Delivery(init, frames[..2]);
    third := DrawAndSwap(gl, strategy, framebuffer, target, Image(3));
    assert third == Delivery(init, frames);
    Latency(init, frames[..1], 2);
    Latency(init, frames[..2], 2);
    Latency(init, frames, 2);
  }
}
