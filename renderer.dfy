/** `GLWpfControlRenderer`: the framebuffer the control draws into, with a colour surface
    shared through WGL_NV_DX_interop, the lock bracket around each frame, the hand-off of
    each frame to a swap strategy, and the teardown of the GL and interop objects. */
module Renderer {
  import opened Common
  import opened Graphics
  import Interop

  /** A call made on the renderer's `ISwapStrategy`. */
  datatype StrategyCall =
    | InitializeCall(width: int, height: int, pixelBufferCount: int)
    | SwapCall(frameBufferSource: int, target: ImageSource)
    | MakeTargetCall(width: int, height: int)
    | DisposeCall

  /** `WritableBitmapSwapStrategy`, whose code is not part of this model: an instance that
      records the calls made on it. Its `MakeTarget` is taken to answer a new `width` x
      `height` Bgra32 `WriteableBitmap`, as the other bitmap strategy does. */
  class WritableBitmapSwapStrategy {
    var calls: seq<StrategyCall>

    constructor ()
      ensures calls == []
    {
      calls := [];
    }

    method Initialize(width: int, height: int, pixelBufferCount: int)
      modifies this
      ensures calls == old(calls) + [InitializeCall(width, height, pixelBufferCount)]
    {
      calls := calls + [InitializeCall(width, height, pixelBufferCount)];
    }

    method Swap(frameBufferSource: int, target: ImageSource)
      modifies this
      ensures calls == old(calls) + [SwapCall(frameBufferSource, target)]
    {
      calls := calls + [SwapCall(frameBufferSource, target)];
    }

    method MakeTarget(log: EffectLog, width: int, height: int) returns (target: ImageSource)
      modifies this
      ensures fresh(target) && target.log == log && target.kind == WriteableBitmapKind
      ensures target.pixelWidth == width && target.pixelHeight == height && target.format == Bgra32
      ensures calls == old(calls) + [MakeTargetCall(width, height)]
    {
      target := new ImageSource.WriteableBitmap(log, width, height, Bgra32);
      calls := calls + [MakeTargetCall(width, height)];
    }

    method Dispose()
      modifies this
      ensures calls == old(calls) + [DisposeCall]
    {
      calls := calls + [DisposeCall];
    }
  }

  /** The calls of the constructor up to and including the completeness query. */
  function SetupEffects(dxDevice: int, colorSurface: int, frameBuffer: int, interopDevice: int): seq<Effect>
  {
    [GenFramebuffer(frameBuffer), GenTexture(frameBuffer + 1),
     DXOpenDevice(dxDevice, interopDevice),
     DXRegisterObject(interopDevice, colorSurface, frameBuffer + 1, interopDevice + 1),
     BindFramebuffer(frameBuffer), FramebufferTexture2D(ColorAttachment0, frameBuffer + 1),
     GenRenderbuffer(frameBuffer + 2), CheckFramebufferStatus]
  }

  /** The calls of `DeleteBuffers`: the three GL objects, then the interop colour object,
      then the interop device. */
  function TeardownEffects(frameBuffer: int, depthBuffer: int, colorBuffer: int,
                           interopDevice: int, interopColorBuffer: int): seq<Effect>
  {
    [DeleteFramebuffer(frameBuffer), DeleteRenderbuffer(depthBuffer), DeleteRenderbuffer(colorBuffer),
     DXUnregisterObject(interopDevice, interopColorBuffer), DXCloseDevice(interopDevice)]
  }

  /** Opening a device and registering one object, then unregistering that object and
      closing the device (the renderer's construction and `DeleteBuffers`): both teardown
      calls succeed, and the devices, objects and locks are as before. */
  lemma RegistrationRoundTrip(st: Interop.InteropState, dxObject: int, name: int)
    requires Interop.Valid(st)
    ensures
      var (withDevice, device) := Interop.OpenDevice(st);
      var (registered, handle) := Interop.RegisterObject(withDevice, device, dxObject, name);
      var (unregistered, unregisteredOk) := Interop.UnregisterObject(registered, device, handle);
      var (closed, closedOk) := Interop.CloseDevice(unregistered, device);
      unregisteredOk && closedOk &&
      closed.devices == st.devices && closed.objects == st.objects && closed.locked == st.locked
  {
    var (withDevice, device) := Interop.OpenDevice(st);
    var (registered, handle) := Interop.RegisterObject(withDevice, device, dxObject, name);
    assert handle !in st.objects && handle !in st.locked;
    assert registered.objects - {handle} == st.objects;
    assert st.devices + {device} - {device} == st.devices;
  }

  class GLWpfControlRenderer {
    const gl: Gl
    const bitmap: ImageSource
    const colorBuffer: int
    const depthBuffer: int
    const swapStrategy: WritableBitmapSwapStrategy
    const frameBuffer: int
    const interopDevice: int
    const interopColorBuffer: int

    /** `Width`, in pixels: the bitmap is made at 96 dpi, so its size in device-independent
      units is its pixel size. */
    function Width(): (r: int)
      ensures r == Source().pixelWidth
    {
      bitmap.pixelWidth
    }

    /** `Height`, in pixels, for the same reason. */
    function Height(): (r: int)
      ensures r == Source().pixelHeight
    {
      bitmap.pixelHeight
    }

    /** `Source`: the bitmap made by the strategy at construction, which never changes. */
    function Source(): (r: ImageSource)
      ensures r == bitmap
    {
      bitmap
    }

    /** Between updates: the device is open, owns the colour object, and the object is not
      locked. */
    ghost predicate Ready()
      reads gl
    {
      gl.Valid() && interopDevice in gl.wgl.devices &&
      Interop.Owns(gl.wgl, interopDevice, interopColorBuffer) && interopColorBuffer !in gl.wgl.locked
    }

    /** Inside `BeginUpdate` .. `EndUpdate`: the colour object is locked for GL. */
    ghost predicate Updating()
      reads gl
    {
      gl.Valid() && interopDevice in gl.wgl.devices &&
      Interop.Owns(gl.wgl, interopDevice, interopColorBuffer) && interopColorBuffer in gl.wgl.locked
    }

    constructor (gl: Gl, bitmap: ImageSource, frameBuffer: int, colorBuffer: int, depthBuffer: int,
                 swapStrategy: WritableBitmapSwapStrategy, interopDevice: int, interopColorBuffer: int)
      ensures this.gl == gl && this.bitmap == bitmap && this.frameBuffer == frameBuffer
      ensures this.colorBuffer == colorBuffer && this.depthBuffer == depthBuffer
      ensures this.swapStrategy == swapStrategy
      ensures this.interopDevice == interopDevice && this.interopColorBuffer == interopColorBuffer
    {
      this.gl, this.bitmap, this.frameBuffer := gl, bitmap, frameBuffer;
      this.colorBuffer, this.depthBuffer, this.swapStrategy := colorBuffer, depthBuffer, swapStrategy;
      this.interopDevice, this.interopColorBuffer := interopDevice, interopColorBuffer;
    }

    /** The constructor `GLWpfControlRenderer(width, height, isHardwareRenderer,
      pixelBufferCount)`: creates the framebuffer, colour texture and depth renderbuffer,
      registers the colour surface as the colour texture, and throws when the framebuffer is
      not complete; otherwise unbinds it, initialises a new strategy with the same size and
      count, and then takes the strategy's target as its fixed `Source`. */
    static method Create(gl: Gl, width: int, height: int, isHardwareRenderer: bool, pixelBufferCount: int,
                         dxDevice: int, colorSurface: int)
      returns (r: Result<GLWpfControlRenderer>)
      requires gl.Valid()
      modifies gl, gl.log
      ensures gl.Valid()
      ensures var fb := old(gl.state.nextName); var device := old(gl.wgl.nextHandle);
        var withDevice := Interop.OpenDevice(old(gl.wgl)).0;
        gl.wgl == Interop.RegisterObject(withDevice, device, colorSurface, fb + 1).0 &&
        (gl.state.status != FramebufferComplete ==>
           r == Failure(GraphicsError(gl.state.status)) &&
           gl.state == old(gl.state).(nextName := fb + 3, framebuffer := fb) &&
           gl.log.events == old(gl.log.events) + SetupEffects(dxDevice, colorSurface, fb, device)) &&
        (gl.state.status == FramebufferComplete ==>
           r.Success? && fresh(r.value) && fresh(r.value.swapStrategy) && fresh(r.value.bitmap) &&
           r.value.gl == gl && r.value.bitmap.log == gl.log && r.value.bitmap.kind == WriteableBitmapKind &&
           r.value.frameBuffer == fb && r.value.colorBuffer == fb + 1 && r.value.depthBuffer == fb + 2 &&
           r.value.interopDevice == device && r.value.interopColorBuffer == device + 1 &&
           gl.wgl.objects[device + 1] == Interop.Registration(device, colorSurface, fb + 1) &&
           r.value.Width() == width && r.value.Height() == height && r.value.Source() == r.value.bitmap &&
           r.value.swapStrategy.calls == [InitializeCall(width, height, pixelBufferCount), MakeTargetCall(width, height)] &&
           r.value.Ready() &&
           gl.state == old(gl.state).(nextName := fb + 3, framebuffer := 0) &&
           gl.log.events == old(gl.log.events) + SetupEffects(dxDevice, colorSurface, fb, device) + [BindFramebuffer(0)])
    {
      var frameBuffer := gl.GenFramebuffer();
      var colorBuffer := gl.GenTexture();
      var interopDevice := gl.DXOpenDevice(dxDevice);
      var interopColorBuffer := gl.DXRegisterObject(interopDevice, colorSurface, colorBuffer);
      gl.BindFramebuffer(frameBuffer);
      gl.FramebufferTexture2D(ColorAttachment0, colorBuffer);
      var depthBuffer := gl.GenRenderbuffer();
      var status := gl.CheckFramebufferStatus();
      if status != FramebufferComplete {
        return Failure(GraphicsError(status));
      }
      gl.BindFramebuffer(0);
      var swapStrategy := new WritableBitmapSwapStrategy();
      swapStrategy.Initialize(width, height, pixelBufferCount);
      var bitmap := swapStrategy.MakeTarget(gl.log, width, height);
      var renderer := new GLWpfControlRenderer(gl, bitmap, frameBuffer, colorBuffer, depthBuffer,
                                               swapStrategy, interopDevice, interopColorBuffer);
      r := Success(renderer);
    }

    /** `BeginUpdate`: locks the colour object, binds `FrameBuffer` and sets the viewport to
      the whole image. */
    method BeginUpdate()
      requires gl.Valid()
      modifies gl, gl.log
      ensures gl.Valid()
      ensures gl.wgl == Interop.LockObject(old(gl.wgl), interopDevice, interopColorBuffer).0
      ensures gl.state == old(gl.state).(framebuffer := frameBuffer, viewport := Rect(0, 0, Width(), Height()))
      ensures gl.log.events == old(gl.log.events) +
        [DXLockObjects(interopDevice, interopColorBuffer), BindFramebuffer(frameBuffer),
         Viewport(Rect(0, 0, Width(), Height()))]
      ensures old(Ready()) ==> Updating()
    {
      var locked := gl.DXLockObjects(interopDevice, interopColorBuffer);
      gl.BindFramebuffer(frameBuffer);
      gl.Viewport(Rect(0, 0, Width(), Height()));
    }

    /** `EndUpdate`: unlocks the object `BeginUpdate` locked. */
    method EndUpdate()
      requires gl.Valid()
      modifies gl, gl.log
      ensures gl.Valid() && gl.state == old(gl.state)
      ensures gl.wgl == Interop.UnlockObject(old(gl.wgl), interopDevice, interopColorBuffer).0
      ensures gl.log.events == old(gl.log.events) + [DXUnlockObjects(interopDevice, interopColorBuffer)]
      ensures old(Updating()) ==> Ready()
    {
      var unlocked := gl.DXUnlockObjects(interopDevice, interopColorBuffer);
    }

    /** `UpdateImage`: one `Swap(FrameBuffer, Source)` on the strategy and nothing else. */
    method UpdateImage()
      modifies swapStrategy
      ensures swapStrategy.calls == old(swapStrategy.calls) + [SwapCall(frameBuffer, bitmap)]
    {
      swapStrategy.Swap(frameBuffer, bitmap);
    }

    /** `DeleteBuffers`: deletes the framebuffer, the depth renderbuffer and (through
      `DeleteRenderbuffer`) the colour texture, then unregisters the colour object, then
      closes the device. The strategy is not disposed. */
    method DeleteBuffers()
      requires gl.Valid()
      modifies gl, gl.log
      ensures gl.Valid() && swapStrategy.calls == old(swapStrategy.calls)
      ensures gl.state == old(gl.state).(colors := old(gl.state.colors) - {frameBuffer},
        framebuffer := if old(gl.state.framebuffer) == frameBuffer then 0 else old(gl.state.framebuffer))
      ensures gl.wgl == Interop.CloseDevice(
        Interop.UnregisterObject(old(gl.wgl), interopDevice, interopColorBuffer).0, interopDevice).0
      ensures gl.log.events == old(gl.log.events) +
        TeardownEffects(frameBuffer, depthBuffer, colorBuffer, interopDevice, interopColorBuffer)
      ensures old(Ready()) ==> interopColorBuffer !in gl.wgl.objects && interopDevice !in gl.wgl.devices
    {
      gl.DeleteFramebuffer(frameBuffer);
      gl.DeleteRenderbuffer(depthBuffer);
      gl.DeleteRenderbuffer(colorBuffer);
      var unregistered := gl.DXUnregisterObject(interopDevice, interopColorBuffer);
      var closed := gl.DXCloseDevice(interopDevice);
    }

    /** `UpdateImageHardware`: not implemented. */
    method UpdateImageHardware() returns (outcome: Outcome)
      ensures outcome == Fail(NotImplemented)
    {
      outcome := Fail(NotImplemented);
    }
  }

  /** One frame as the control drives it: `BeginUpdate`, the user's drawing, `EndUpdate`,
      `UpdateImage`. The interop state is as before, the frame sits in `FrameBuffer`, and the
      strategy has been asked for exactly one swap. */
  method RenderFrame(renderer: GLWpfControlRenderer, frame: Frame)
    requires renderer.Ready()
    modifies renderer.gl, renderer.gl.log, renderer.swapStrategy
    ensures renderer.Ready() && renderer.gl.wgl == old(renderer.gl.wgl)
    ensures renderer.gl.state.colors == old(renderer.gl.state.colors)[renderer.frameBuffer := frame]
    ensures renderer.gl.state.framebuffer == renderer.frameBuffer
    ensures renderer.gl.log.events == old(renderer.gl.log.events) +
      [DXLockObjects(renderer.interopDevice, renderer.interopColorBuffer), BindFramebuffer(renderer.frameBuffer),
       Viewport(Rect(0, 0, renderer.Width(), renderer.Height())), Draw(renderer.frameBuffer, frame),
       DXUnlockObjects(renderer.interopDevice, renderer.interopColorBuffer)]
    ensures renderer.swapStrategy.calls ==
      old(renderer.swapStrategy.calls) + [SwapCall(renderer.frameBuffer, renderer.bitmap)]
  {
    ghost var before := renderer.gl.wgl;
    Interop.LockUnlockBracket(before, renderer.interopDevice, renderer.interopColorBuffer);
    renderer.BeginUpdate();
    renderer.gl.Draw(frame);
    renderer.EndUpdate();
    renderer.UpdateImage();
  }

  /** A renderer built on a complete framebuffer, driven for one frame and torn down, leaves
      the interop devices and objects as it found them. */
  method RendererLifetime(width: int, height: int, frame: Frame)
    returns (built: bool, devicesRestored: bool, objectsRestored: bool, swaps: int)
    ensures built && devicesRestored && objectsRestored && swaps == 1
  {
    var log := new EffectLog();
    var gl := new Gl(log, FramebufferComplete);
    ghost var initial := gl.wgl;
    var r := GLWpfControlRenderer.Create(gl, width, height, false, 2, 1, 7);
    built := r.Success?;
    var renderer := r.value;
    RegistrationRoundTrip(initial, 7, renderer.colorBuffer);
    RenderFrame(renderer, frame);
    renderer.DeleteBuffers();
    devicesRestored := gl.wgl.devices == Interop.Initial().devices;
    objectsRestored := gl.wgl.objects == Interop.Initial().objects;
    swaps := |renderer.swapStrategy.calls| - 2;
  }
}
