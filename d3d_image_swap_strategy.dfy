/** `D3DImageSwapStrategy`: the same pixel-buffer ring as `InteropBitmapSwapStrategy`, plus
    the bookkeeping of a WGL_NV_DX_interop device and two registered objects. The Direct3D
    device and texture it creates are not modelled: `dxDevice` stands for the device's
    native handle, and `depthSurface` for the surface field, which no code assigns. */
module D3DImage {
  import opened Common
  import opened Graphics
  import opened Pipeline
  import opened PixelBuffers
  import Interop

  /** The calls `Dispose(disposing)` makes: on the first successful call, the ring's
      deletions when `disposing`, then on both paths the unregistration of the depth
      object and the closing of the interop device. */
  function DisposeEffects(disposed: bool, disposing: bool, ring: Option<seq<int>>,
                          device: int, depthObject: int): (r: seq<Effect>)
    ensures disposed ==> r == []
  {
    if disposed || (disposing && ring.None?) then []
    else (if disposing then DeleteEffects(ring.value) else []) +
         [DXUnregisterObject(device, depthObject), DXCloseDevice(device)]
  }

  /** A first `Dispose` that runs ends by unregistering the depth object and then closing
      the device; it unregisters nothing else (the colour object stays registered), and it
      deletes pixel buffers, before both, only when `disposing`. */
  lemma DisposeOrder(disposing: bool, ring: Option<seq<int>>, device: int, depthObject: int)
    requires !disposing || ring.Some?
    ensures var e := DisposeEffects(false, disposing, ring, device, depthObject);
      |e| >= 2 &&
      e[|e| - 2] == DXUnregisterObject(device, depthObject) && e[|e| - 1] == DXCloseDevice(device) &&
      (forall i :: 0 <= i < |e| ==> (e[i].DXUnregisterObject? <==> i == |e| - 2)) &&
      (forall i :: 0 <= i < |e| ==> (e[i].DXCloseDevice? <==> i == |e| - 1)) &&
      (forall i :: 0 <= i < |e| - 2 ==> e[i].DeleteBuffer?) &&
      (!disposing ==> |e| == 2)
  {
    var e := DisposeEffects(false, disposing, ring, device, depthObject);
    var deletes := if disposing then DeleteEffects(ring.value) else [];
    assert e == deletes + [DXUnregisterObject(device, depthObject), DXCloseDevice(device)];
    assert |e| == |deletes| + 2;
    forall i | 0 <= i < |e|
      ensures (e[i].DXUnregisterObject? <==> i == |e| - 2) && (e[i].DXCloseDevice? <==> i == |e| - 1)
      ensures i < |e| - 2 ==> e[i].DeleteBuffer?
    {
      if i < |deletes| {
        assert e[i] == deletes[i];
      }
    }
  }

  /** The start of `Initialize`: the interop device, the framebuffer and the depth texture. */
  function OpenEffects(dxDevice: int, device: int, framebuffer: int): seq<Effect>
  {
    [DXOpenDevice(dxDevice, device), GenFramebuffer(framebuffer),
     BindFramebuffer(framebuffer), GenTexture(framebuffer + 1)]
  }

  /** The part of `Initialize` that needs the surface: two registrations, both as the depth
      texture, the two attachments and the status query, then the framebuffer unbound. */
  function AttachEffects(device: int, surface: int, depthTexture: int, colorTexture: int,
                         depthObject: int, colorObject: int): seq<Effect>
  {
    [DXRegisterObject(device, surface, depthTexture, depthObject),
     FramebufferTexture2D(DepthAttachment, depthTexture), GenTexture(colorTexture),
     DXRegisterObject(device, surface, depthTexture, colorObject),
     FramebufferTexture2D(ColorAttachment0, colorTexture), CheckFramebufferStatus,
     BindFramebuffer(0)]
  }

  class D3DImageSwapStrategy {
    var hasRenderedAFrame: bool
    var pixelBuffers: array?<int>
    var interopDevice: int
    var interopDepthBuffer: int
    var interopColorBuffer: int
    var colorBuffer: int
    var depthBuffer: int
    var frameBuffer: int
    const depthSurface: Option<int>
    var disposedValue: bool
    /** `GC.SuppressFinalize(this)` has been called. */
    var finalizeSuppressed: bool

    /** Every handle starts as `IntPtr.Zero` / 0; the source leaves `depthSurface` null,
      that is `None`. */
    constructor (depthSurface: Option<int>)
      ensures this.depthSurface == depthSurface
      ensures !hasRenderedAFrame && pixelBuffers == null && !disposedValue && !finalizeSuppressed
      ensures interopDevice == 0 && interopDepthBuffer == 0 && interopColorBuffer == 0
      ensures colorBuffer == 0 && depthBuffer == 0 && frameBuffer == 0
    {
      this.depthSurface := depthSurface;
      hasRenderedAFrame, pixelBuffers, disposedValue, finalizeSuppressed := false, null, false, false;
      interopDevice, interopDepthBuffer, interopColorBuffer := 0, 0, 0;
      colorBuffer, depthBuffer, frameBuffer := 0, 0, 0;
    }

    ghost function Ring(): Option<seq<int>>
      reads this, pixelBuffers
    {
      if pixelBuffers == null then None else Some(pixelBuffers[..])
    }

    /** Opens an interop device on `dxDevice`, creates and binds the framebuffer, and
      creates the depth texture. */
    method CreateFramebuffer(gl: Gl, dxDevice: int)
      requires gl.Valid()
      modifies this`interopDevice, this`frameBuffer, this`depthBuffer, gl, gl.log
      ensures gl.Valid()
      ensures (gl.wgl, interopDevice) == Interop.OpenDevice(old(gl.wgl))
      ensures frameBuffer == old(gl.state.nextName) && depthBuffer == frameBuffer + 1
      ensures gl.state == old(gl.state).(nextName := frameBuffer + 2, framebuffer := frameBuffer)
      ensures gl.log.events == old(gl.log.events) + OpenEffects(dxDevice, interopDevice, frameBuffer)
    {
      interopDevice := gl.DXOpenDevice(dxDevice);
      frameBuffer := gl.GenFramebuffer();
      gl.BindFramebuffer(frameBuffer);
      depthBuffer := gl.GenTexture();
    }

    /** Registers `surface` twice, both times as the depth texture, attaches the depth and a
      new colour texture, ignores the framebuffer status and unbinds the framebuffer. */
    method AttachSurface(gl: Gl, surface: int)
      requires gl.Valid() && interopDevice in gl.wgl.devices
      modifies this`interopDepthBuffer, this`interopColorBuffer, this`colorBuffer, gl, gl.log
      ensures gl.Valid()
      ensures colorBuffer == old(gl.state.nextName)
      ensures interopDepthBuffer == old(gl.wgl.nextHandle) && interopColorBuffer == interopDepthBuffer + 1
      ensures var registered := Interop.Registration(interopDevice, surface, depthBuffer);
        gl.wgl == old(gl.wgl).(nextHandle := interopColorBuffer + 1,
                               objects := old(gl.wgl.objects)[interopDepthBuffer := registered]
                                                             [interopColorBuffer := registered])
      ensures gl.state == old(gl.state).(nextName := colorBuffer + 1, framebuffer := 0)
      ensures gl.log.events == old(gl.log.events) +
        AttachEffects(interopDevice, surface, depthBuffer, colorBuffer, interopDepthBuffer, interopColorBuffer)
    {
      interopDepthBuffer := gl.DXRegisterObject(interopDevice, surface, depthBuffer);
      gl.FramebufferTexture2D(DepthAttachment, depthBuffer);
      colorBuffer := gl.GenTexture();
      interopColorBuffer := gl.DXRegisterObject(interopDevice, surface, depthBuffer);
      gl.FramebufferTexture2D(ColorAttachment0, colorBuffer);
      var status := gl.CheckFramebufferStatus();
      // an incomplete framebuffer is not reported
      gl.BindFramebuffer(0);
    }

    /** Without a surface, the first registration is a null reference. With one, both
      registrations name the depth texture, the colour texture is never registered, the
      framebuffer status does not matter, and the ring is allocated as by the other
      strategy. */
    method Initialize(gl: Gl, dxDevice: int, width: int, height: int, pixelBufferCount: int)
      returns (outcome: Outcome)
      requires gl.Valid()
      modifies this, gl, gl.log
      ensures gl.Valid()
      ensures hasRenderedAFrame == old(hasRenderedAFrame) && disposedValue == old(disposedValue)
      ensures finalizeSuppressed == old(finalizeSuppressed)
      ensures var device := old(gl.wgl.nextHandle); var fb := old(gl.state.nextName);
        interopDevice == device && frameBuffer == fb && depthBuffer == fb + 1 &&
        gl.wgl.devices == old(gl.wgl.devices) + {device} && gl.wgl.locked == old(gl.wgl.locked)
      ensures depthSurface.None? ==>
        outcome == Fail(NullReference) && pixelBuffers == old(pixelBuffers) &&
        interopDepthBuffer == old(interopDepthBuffer) && interopColorBuffer == old(interopColorBuffer) &&
        colorBuffer == old(colorBuffer) && gl.wgl.objects == old(gl.wgl.objects) &&
        gl.state == old(gl.state).(nextName := frameBuffer + 2, framebuffer := frameBuffer) &&
        gl.log.events == old(gl.log.events) + OpenEffects(dxDevice, interopDevice, frameBuffer)
      ensures depthSurface.Some? ==>
        var registered := Interop.Registration(interopDevice, depthSurface.value, depthBuffer);
        var prefix := old(gl.log.events) + OpenEffects(dxDevice, interopDevice, frameBuffer) +
          AttachEffects(interopDevice, depthSurface.value, depthBuffer, colorBuffer,
                        interopDepthBuffer, interopColorBuffer);
        var setUp := old(gl.state).(nextName := frameBuffer + 3, framebuffer := 0);
        colorBuffer == frameBuffer + 2 && colorBuffer != depthBuffer &&
        interopDepthBuffer == interopDevice + 1 && interopColorBuffer == interopDevice + 2 &&
        gl.wgl.objects == old(gl.wgl.objects)[interopDepthBuffer := registered][interopColorBuffer := registered] &&
        outcome == (if pixelBufferCount < 0 then Fail(Overflow) else Ok) &&
        (pixelBufferCount < 0 ==>
           pixelBuffers == old(pixelBuffers) && gl.state == setUp && gl.log.events == prefix) &&
        (pixelBufferCount >= 0 ==>
           pixelBuffers != null && fresh(pixelBuffers) && pixelBuffers.Length == pixelBufferCount &&
           Distinct(pixelBuffers[..]) &&
           (forall i :: 0 <= i < pixelBufferCount ==> pixelBuffers[i] == frameBuffer + 3 + i) &&
           (forall b :: b in pixelBuffers[..] ==>
              b in gl.state.sizes && gl.state.sizes[b] == PixelBytes(width, height) &&
              b in gl.state.contents && gl.state.contents[b] == None) &&
           gl.state == Allocate(setUp, pixelBufferCount, PixelBytes(width, height)).(packBuffer := 0) &&
           gl.log.events == prefix + AllocateEffects(frameBuffer + 3, pixelBufferCount, PixelBytes(width, height)) +
                            [BindPixelPackBuffer(0)])
    {
      CreateFramebuffer(gl, dxDevice);
      if depthSurface.None? {
        return Fail(NullReference);
      }
      AttachSurface(gl, depthSurface.value);
      if pixelBufferCount < 0 {
        return Fail(Overflow);
      }
      pixelBuffers := AllocateRing(gl, width, height, pixelBufferCount);
      outcome := Ok;
    }

    /** `Swap(int, WriteableBitmap)`: the ring step of `SwapCompleted`, after which a frame
      has been rendered. */
    method Swap(gl: Gl, frameBufferSource: int, target: ImageSource) returns (outcome: Outcome)
      requires gl.Valid() && target.log == gl.log && target.kind == WriteableBitmapKind
      modifies this, pixelBuffers, gl, gl.log, target
      ensures gl.Valid() && pixelBuffers == old(pixelBuffers)
      ensures SwapCompleted(gl, pixelBuffers, old(hasRenderedAFrame), frameBufferSource, target, outcome)
      ensures hasRenderedAFrame == (old(hasRenderedAFrame) || outcome.Ok?)
      ensures disposedValue == old(disposedValue) && finalizeSuppressed == old(finalizeSuppressed)
      ensures interopDevice == old(interopDevice) && interopDepthBuffer == old(interopDepthBuffer)
      ensures interopColorBuffer == old(interopColorBuffer)
      ensures frameBuffer == old(frameBuffer) && depthBuffer == old(depthBuffer) && colorBuffer == old(colorBuffer)
    {
      outcome := SwapPixelBuffers(gl, pixelBuffers, hasRenderedAFrame, frameBufferSource, target);
      if outcome.Ok? {
        hasRenderedAFrame := true;
      }
    }

    /** `ISwapStrategy.Swap(int, ImageSource)`: the cast to `WriteableBitmap` fails, changing
      nothing, on any other kind of image, such as this strategy's own `D3DImage` target. */
    method SwapImageSource(gl: Gl, frameBufferSource: int, target: ImageSource) returns (outcome: Outcome)
      requires gl.Valid() && target.log == gl.log
      modifies this, pixelBuffers, gl, gl.log, target
      ensures gl.Valid() && pixelBuffers == old(pixelBuffers)
      ensures target.kind != WriteableBitmapKind ==>
        outcome == Fail(InvalidCast) && unchanged(this, gl, gl.log, target) &&
        (pixelBuffers != null ==> unchanged(pixelBuffers))
      ensures target.kind == WriteableBitmapKind ==>
        SwapCompleted(gl, pixelBuffers, old(hasRenderedAFrame), frameBufferSource, target, outcome) &&
        hasRenderedAFrame == (old(hasRenderedAFrame) || outcome.Ok?)
      ensures disposedValue == old(disposedValue) && finalizeSuppressed == old(finalizeSuppressed)
      ensures interopDevice == old(interopDevice) && interopDepthBuffer == old(interopDepthBuffer)
      ensures interopColorBuffer == old(interopColorBuffer)
      ensures frameBuffer == old(frameBuffer) && depthBuffer == old(depthBuffer) && colorBuffer == old(colorBuffer)
    {
      if target.kind != WriteableBitmapKind {
        return Fail(InvalidCast);
      }
      outcome := Swap(gl, frameBufferSource, target);
    }

    /** A new `D3DImage`, whatever the requested size. */
    method MakeTarget(log: EffectLog, width: int, height: int) returns (target: ImageSource)
      ensures fresh(target) && target.log == log && target.kind == D3DImageKind
      ensures target.backBuffer == None && target.dirty == [] && !target.locked
    {
      target := new ImageSource.D3DImage(log);
    }

    /** `Dispose(bool disposing)`: runs at most once (until it succeeds); deletes the ring
      only when `disposing`; on both paths unregisters the depth object, then closes the
      interop device. */
    method DisposeCore(gl: Gl, disposing: bool) returns (outcome: Outcome)
      requires gl.Valid()
      modifies this, gl, gl.log
      ensures gl.Valid()
      ensures pixelBuffers == old(pixelBuffers) && hasRenderedAFrame == old(hasRenderedAFrame)
      ensures finalizeSuppressed == old(finalizeSuppressed)
      ensures interopDevice == old(interopDevice) && interopDepthBuffer == old(interopDepthBuffer)
      ensures interopColorBuffer == old(interopColorBuffer)
      ensures frameBuffer == old(frameBuffer) && depthBuffer == old(depthBuffer) && colorBuffer == old(colorBuffer)
      ensures outcome == DisposeOutcome(old(disposedValue), disposing, pixelBuffers != null)
      ensures disposedValue == outcome.Ok?
      ensures gl.log.events == old(gl.log.events) +
        DisposeEffects(old(disposedValue), disposing, Ring(), interopDevice, interopDepthBuffer)
      ensures var ran := !old(disposedValue) && outcome.Ok?;
        gl.state == (if ran && disposing then DeleteAll(old(gl.state), pixelBuffers[..]) else old(gl.state)) &&
        gl.wgl == if ran
                  then Interop.CloseDevice(Interop.UnregisterObject(old(gl.wgl), interopDevice, interopDepthBuffer).0,
                                           interopDevice).0
                  else old(gl.wgl)
    {
      if !disposedValue {
        if disposing {
          if pixelBuffers == null {
            return Fail(NullReference);
          }
          DeletePixelBuffers(gl, pixelBuffers);
        }
        var unregistered := gl.DXUnregisterObject(interopDevice, interopDepthBuffer);
        var closed := gl.DXCloseDevice(interopDevice);
        disposedValue := true;
      }
      outcome := Ok;
    }

    /** The finalizer: `Dispose(false)`. */
    method Finalize(gl: Gl) returns (outcome: Outcome)
      requires gl.Valid()
      modifies this, gl, gl.log
      ensures gl.Valid() && pixelBuffers == old(pixelBuffers)
      ensures hasRenderedAFrame == old(hasRenderedAFrame) && finalizeSuppressed == old(finalizeSuppressed)
      ensures interopDevice == old(interopDevice) && interopDepthBuffer == old(interopDepthBuffer)
      ensures interopColorBuffer == old(interopColorBuffer)
      ensures frameBuffer == old(frameBuffer) && depthBuffer == old(depthBuffer) && colorBuffer == old(colorBuffer)
      ensures outcome == Ok && disposedValue
      ensures gl.state == old(gl.state)
      ensures gl.log.events == old(gl.log.events) +
        DisposeEffects(old(disposedValue), false, Ring(), interopDevice, interopDepthBuffer)
      ensures gl.wgl == if old(disposedValue) then old(gl.wgl)
                        else Interop.CloseDevice(Interop.UnregisterObject(old(gl.wgl), interopDevice,
                                                                         interopDepthBuffer).0, interopDevice).0
    {
      outcome := DisposeCore(gl, false);
    }

    /** `Dispose()`: `Dispose(true)`, then `GC.SuppressFinalize(this)`. */
    method Dispose(gl: Gl) returns (outcome: Outcome)
      requires gl.Valid()
      modifies this, gl, gl.log
      ensures gl.Valid() && pixelBuffers == old(pixelBuffers) && hasRenderedAFrame == old(hasRenderedAFrame)
      ensures interopDevice == old(interopDevice) && interopDepthBuffer == old(interopDepthBuffer)
      ensures interopColorBuffer == old(interopColorBuffer)
      ensures frameBuffer == old(frameBuffer) && depthBuffer == old(depthBuffer) && colorBuffer == old(colorBuffer)
      ensures outcome == DisposeOutcome(old(disposedValue), true, pixelBuffers != null)
      ensures disposedValue == outcome.Ok? && finalizeSuppressed == (old(finalizeSuppressed) || outcome.Ok?)
      ensures gl.log.events == old(gl.log.events) +
        DisposeEffects(old(disposedValue), true, Ring(), interopDevice, interopDepthBuffer)
      ensures var ran := !old(disposedValue) && outcome.Ok?;
        gl.state == (if ran then DeleteAll(old(gl.state), pixelBuffers[..]) else old(gl.state)) &&
        gl.wgl == if ran
                  then Interop.CloseDevice(Interop.UnregisterObject(old(gl.wgl), interopDevice, interopDepthBuffer).0,
                                           interopDevice).0
                  else old(gl.wgl)
    {
      outcome := DisposeCore(gl, true);
      if outcome.Ok? {
        finalizeSuppressed := true;
      }
    }
  }

  /** As the strategy is written (no surface), `Initialize` always fails with a null
      reference, before registering anything or allocating a buffer. */
  method InitializeWithoutSurface(width: int, height: int, pixelBufferCount: int) returns (outcome: Outcome, hasRing: bool)
    ensures outcome == Fail(NullReference) && !hasRing
  {
    var log := new EffectLog();
    var gl := new Gl(log, FramebufferComplete);
    var strategy := new D3DImageSwapStrategy(None);
    outcome := strategy.Initialize(gl, 1, width, height, pixelBufferCount);
    hasRing := strategy.pixelBuffers != null;
  }

  /** With a surface and a framebuffer the driver reports incomplete, `Initialize` still
      succeeds; after `Dispose` the colour object is still registered (under the depth
      texture's name) while the device is closed. */
  method ColorObjectOutlivesDispose(surface: int, code: int)
    returns (initialized: Outcome, disposed: Outcome, colorStillRegistered: bool, deviceClosed: bool)
    ensures initialized == Ok && disposed == Ok && colorStillRegistered && deviceClosed
  {
    var log := new EffectLog();
    var gl := new Gl(log, FramebufferIncomplete(code));
    var strategy := new D3DImageSwapStrategy(Some(surface));
    initialized := strategy.Initialize(gl, 1, 256, 256, 2);
    Interop.SecondRegistrationOutlivesClose(Interop.OpenDevice(Interop.Initial()).0, strategy.interopDevice,
                                            surface, strategy.depthBuffer);
    disposed := strategy.Dispose(gl);
    colorStillRegistered := strategy.interopColorBuffer in gl.wgl.objects;
    deviceClosed := strategy.interopDevice !in gl.wgl.devices;
  }

  /** `MakeTarget` gives a `D3DImage`, so the untyped `Swap` into the strategy's own target
      fails on the cast. */
  method SwapIntoOwnTarget(surface: int) returns (outcome: Outcome)
    ensures outcome == Fail(InvalidCast)
  {
    var log := new EffectLog();
    var gl := new Gl(log, FramebufferComplete);
    var strategy := new D3DImageSwapStrategy(Some(surface));
    var initialized := strategy.Initialize(gl, 1, 256, 256, 2);
    var target := strategy.MakeTarget(log, 256, 256);
    outcome := strategy.SwapImageSource(gl, strategy.frameBuffer, target);
  }
}
