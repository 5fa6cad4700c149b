/** The platform the strategies and the renderer drive: an OpenGL context with the
    WGL_NV_DX_interop extension (class `Gl`) and WPF image sources (class `ImageSource`).
    GPU objects are integer names, pixel transfers copy `Frame` values, and every call is
    appended to one shared `EffectLog`, so that the order of GL and bitmap calls is visible. */
module Graphics {
  import opened Common
  import Interop

  /** The trace of calls, shared by the GL context and the bitmaps it fills. */
  class EffectLog {
    var events: seq<Effect>

    constructor ()
      ensures events == []
    {
      events := [];
    }

    method Emit(e: Effect)
      modifies this
      ensures events == old(events) + [e]
    {
      events := events + [e];
    }
  }

  /** The GL state the model tracks.
      `sizes`: pixel buffers that have storage, with their size in bytes;
      `contents`: what each of those holds (`None`: never written since allocation);
      `colors`: the colour attachment content of each framebuffer that was drawn into;
      `packBuffer`, `framebuffer`: the PIXEL_PACK_BUFFER and FRAMEBUFFER bindings (0: none);
      `status`: what `glCheckFramebufferStatus` reports, as decided by the driver. */
  datatype GlState = GlState(
    nextName: int,
    sizes: map<int, int>,
    contents: map<int, Option<Frame>>,
    colors: map<int, Frame>,
    packBuffer: int,
    framebuffer: int,
    viewport: Rect,
    status: FramebufferStatus)

  function Lookup(contents: map<int, Option<Frame>>, buffer: int): Option<Frame>
  {
    if buffer in contents then contents[buffer] else None
  }

  /** A pixel transfer into `buffer`; a name without storage receives nothing. */
  function Write(contents: map<int, Option<Frame>>, buffer: int, data: Option<Frame>): (r: map<int, Option<Frame>>)
    ensures r.Keys == contents.Keys
    ensures buffer in contents ==> Lookup(r, buffer) == data
    ensures forall b :: b != buffer ==> Lookup(r, b) == Lookup(contents, b)
  {
    if buffer in contents then contents[buffer := data] else contents
  }

  function ColorOf(st: GlState, framebuffer: int): Frame
  {
    if framebuffer in st.colors then st.colors[framebuffer] else UndefinedImage
  }

  /** `glBufferData(PIXEL_PACK_BUFFER, size, NULL, STREAM_READ)`: fresh storage of `size`
      bytes with undefined content for the bound buffer. */
  function BufferStorage(st: GlState, size: int): (r: GlState)
    ensures st.packBuffer != 0 ==>
      r.sizes == st.sizes[st.packBuffer := size] && r.contents == st.contents[st.packBuffer := None]
    ensures st.packBuffer == 0 ==> r == st
    ensures r.nextName == st.nextName && r.packBuffer == st.packBuffer && r.colors == st.colors
  {
    if st.packBuffer != 0 then
      st.(sizes := st.sizes[st.packBuffer := size], contents := st.contents[st.packBuffer := None])
    else st
  }

  /** `glDeleteBuffers` on one name: its storage goes, and a binding to it reverts to 0. */
  function DeleteBufferState(st: GlState, buffer: int): (r: GlState)
    ensures buffer !in r.sizes && buffer !in r.contents
    ensures r.sizes == st.sizes - {buffer} && r.contents == st.contents - {buffer}
    ensures r.packBuffer == if st.packBuffer == buffer then 0 else st.packBuffer
  {
    st.(sizes := st.sizes - {buffer}, contents := st.contents - {buffer},
        packBuffer := if st.packBuffer == buffer then 0 else st.packBuffer)
  }

  /** The current OpenGL context, seen through the calls the core makes. `GL.Gen*` all
      draw from one counter, so every name handed out is new. */
  class Gl {
    const log: EffectLog
    var state: GlState
    var wgl: Interop.InteropState

    ghost predicate Valid()
      reads this
    {
      state.nextName >= 1 && Interop.Valid(wgl)
    }

    constructor (log: EffectLog, status: FramebufferStatus)
      ensures Valid() && this.log == log
      ensures state == GlState(1, map[], map[], map[], 0, 0, Rect(0, 0, 0, 0), status)
      ensures wgl == Interop.Initial()
    {
      this.log := log;
      state := GlState(1, map[], map[], map[], 0, 0, Rect(0, 0, 0, 0), status);
      wgl := Interop.Initial();
    }

    method GenBuffer() returns (name: int)
      requires Valid()
      modifies this, log
      ensures Valid() && wgl == old(wgl)
      ensures name == old(state.nextName) && name > 0
      ensures state == old(state).(nextName := name + 1)
      ensures log.events == old(log.events) + [Effect.GenBuffer(name)]
    {
      name := state.nextName;
      state := state.(nextName := name + 1);
      log.Emit(Effect.GenBuffer(name));
    }

    method GenFramebuffer() returns (name: int)
      requires Valid()
      modifies this, log
      ensures Valid() && wgl == old(wgl)
      ensures name == old(state.nextName) && name > 0
      ensures state == old(state).(nextName := name + 1)
      ensures log.events == old(log.events) + [Effect.GenFramebuffer(name)]
    {
      name := state.nextName;
      state := state.(nextName := name + 1);
      log.Emit(Effect.GenFramebuffer(name));
    }

    method GenTexture() returns (name: int)
      requires Valid()
      modifies this, log
      ensures Valid() && wgl == old(wgl)
      ensures name == old(state.nextName) && name > 0
      ensures state == old(state).(nextName := name + 1)
      ensures log.events == old(log.events) + [Effect.GenTexture(name)]
    {
      name := state.nextName;
      state := state.(nextName := name + 1);
      log.Emit(Effect.GenTexture(name));
    }

    method GenRenderbuffer() returns (name: int)
      requires Valid()
      modifies this, log
      ensures Valid() && wgl == old(wgl)
      ensures name == old(state.nextName) && name > 0
      ensures state == old(state).(nextName := name + 1)
      ensures log.events == old(log.events) + [Effect.GenRenderbuffer(name)]
    {
      name := state.nextName;
      state := state.(nextName := name + 1);
      log.Emit(Effect.GenRenderbuffer(name));
    }

    method BindPixelPackBuffer(buffer: int)
      requires Valid()
      modifies this, log
      ensures Valid() && wgl == old(wgl)
      ensures state == old(state).(packBuffer := buffer)
      ensures log.events == old(log.events) + [Effect.BindPixelPackBuffer(buffer)]
    {
      state := state.(packBuffer := buffer);
      log.Emit(Effect.BindPixelPackBuffer(buffer));
    }

    method BufferData(size: int)
      requires Valid()
      modifies this, log
      ensures Valid() && wgl == old(wgl)
      ensures state == BufferStorage(old(state), size)
      ensures log.events == old(log.events) + [Effect.BufferData(size)]
    {
      state := BufferStorage(state, size);
      log.Emit(Effect.BufferData(size));
    }

    method DeleteBuffer(buffer: int)
      requires Valid()
      modifies this, log
      ensures Valid() && wgl == old(wgl)
      ensures state == DeleteBufferState(old(state), buffer)
      ensures log.events == old(log.events) + [Effect.DeleteBuffer(buffer)]
    {
      state := DeleteBufferState(state, buffer);
      log.Emit(Effect.DeleteBuffer(buffer));
    }

    method BindFramebuffer(framebuffer: int)
      requires Valid()
      modifies this, log
      ensures Valid() && wgl == old(wgl)
      ensures state == old(state).(framebuffer := framebuffer)
      ensures log.events == old(log.events) + [Effect.BindFramebuffer(framebuffer)]
    {
      state := state.(framebuffer := framebuffer);
      log.Emit(Effect.BindFramebuffer(framebuffer));
    }

    method FramebufferTexture2D(attachment: Attachment, texture: int)
      requires Valid()
      modifies log
      ensures log.events == old(log.events) + [Effect.FramebufferTexture2D(attachment, texture)]
    {
      log.Emit(Effect.FramebufferTexture2D(attachment, texture));
    }

    method CheckFramebufferStatus() returns (status: FramebufferStatus)
      requires Valid()
      modifies log
      ensures status == state.status
      ensures log.events == old(log.events) + [Effect.CheckFramebufferStatus]
    {
      status := state.status;
      log.Emit(Effect.CheckFramebufferStatus);
    }

    method ReadBuffer(attachment: Attachment)
      requires Valid()
      modifies log
      ensures log.events == old(log.events) + [Effect.ReadBuffer(attachment)]
    {
      log.Emit(Effect.ReadBuffer(attachment));
    }

    /** `glReadPixels` into the bound pixel-pack buffer: the bound framebuffer's colour
      attachment is what that buffer holds afterwards. */
    method ReadPixels(area: Rect)
      requires Valid()
      modifies this, log
      ensures Valid() && wgl == old(wgl)
      ensures state == old(state).(contents := Write(old(state.contents), old(state.packBuffer),
                                                     Some(ColorOf(old(state), old(state.framebuffer)))))
      ensures log.events == old(log.events) + [Effect.ReadPixels(area)]
    {
      state := state.(contents := Write(state.contents, state.packBuffer, Some(ColorOf(state, state.framebuffer))));
      log.Emit(Effect.ReadPixels(area));
    }

    /** `glMapBuffer(PIXEL_PACK_BUFFER, READ_ONLY)`: the bound buffer's content. The read
      is taken to have completed by the time the buffer is mapped. */
    method MapBuffer() returns (data: Option<Frame>)
      requires Valid()
      modifies log
      ensures data == Lookup(state.contents, state.packBuffer)
      ensures log.events == old(log.events) + [Effect.MapBuffer]
    {
      data := Lookup(state.contents, state.packBuffer);
      log.Emit(Effect.MapBuffer);
    }

    method UnmapBuffer()
      requires Valid()
      modifies log
      ensures log.events == old(log.events) + [Effect.UnmapBuffer]
    {
      log.Emit(Effect.UnmapBuffer);
    }

    method DeleteFramebuffer(framebuffer: int)
      requires Valid()
      modifies this, log
      ensures Valid() && wgl == old(wgl)
      ensures state == old(state).(colors := old(state.colors) - {framebuffer},
                                   framebuffer := if old(state.framebuffer) == framebuffer then 0 else old(state.framebuffer))
      ensures log.events == old(log.events) + [Effect.DeleteFramebuffer(framebuffer)]
    {
      state := state.(colors := state.colors - {framebuffer},
                      framebuffer := if state.framebuffer == framebuffer then 0 else state.framebuffer);
      log.Emit(Effect.DeleteFramebuffer(framebuffer));
    }

    method DeleteRenderbuffer(renderbuffer: int)
      requires Valid()
      modifies log
      ensures log.events == old(log.events) + [Effect.DeleteRenderbuffer(renderbuffer)]
    {
      log.Emit(Effect.DeleteRenderbuffer(renderbuffer));
    }

    method Viewport(area: Rect)
      requires Valid()
      modifies this, log
      ensures Valid() && wgl == old(wgl)
      ensures state == old(state).(viewport := area)
      ensures log.events == old(log.events) + [Effect.Viewport(area)]
    {
      state := state.(viewport := area);
      log.Emit(Effect.Viewport(area));
    }

    /** The host's draw calls between `BeginUpdate` and `EndUpdate`: the bound framebuffer's
      colour attachment now shows `frame`. */
    method Draw(frame: Frame)
      requires Valid()
      modifies this, log
      ensures Valid() && wgl == old(wgl)
      ensures state == old(state).(colors := old(state.colors)[old(state.framebuffer) := frame])
      ensures log.events == old(log.events) + [Effect.Draw(old(state.framebuffer), frame)]
    {
      log.Emit(Effect.Draw(state.framebuffer, frame));
      state := state.(colors := state.colors[state.framebuffer := frame]);
    }

    method DXOpenDevice(dxDevice: int) returns (device: int)
      requires Valid()
      modifies this, log
      ensures Valid() && state == old(state)
      ensures (wgl, device) == Interop.OpenDevice(old(wgl))
      ensures log.events == old(log.events) + [Effect.DXOpenDevice(dxDevice, device)]
    {
      var r := Interop.OpenDevice(wgl);
      wgl, device := r.0, r.1;
      log.Emit(Effect.DXOpenDevice(dxDevice, device));
    }

    method DXRegisterObject(device: int, dxObject: int, name: int) returns (handle: int)
      requires Valid()
      modifies this, log
      ensures Valid() && state == old(state)
      ensures (wgl, handle) == Interop.RegisterObject(old(wgl), device, dxObject, name)
      ensures log.events == old(log.events) + [Effect.DXRegisterObject(device, dxObject, name, handle)]
    {
      var r := Interop.RegisterObject(wgl, device, dxObject, name);
      wgl, handle := r.0, r.1;
      log.Emit(Effect.DXRegisterObject(device, dxObject, name, handle));
    }

    method DXUnregisterObject(device: int, handle: int) returns (ok: bool)
      requires Valid()
      modifies this, log
      ensures Valid() && state == old(state)
      ensures (wgl, ok) == Interop.UnregisterObject(old(wgl), device, handle)
      ensures log.events == old(log.events) + [Effect.DXUnregisterObject(device, handle)]
    {
      var r := Interop.UnregisterObject(wgl, device, handle);
      wgl, ok := r.0, r.1;
      log.Emit(Effect.DXUnregisterObject(device, handle));
    }

    method DXCloseDevice(device: int) returns (ok: bool)
      requires Valid()
      modifies this, log
      ensures Valid() && state == old(state)
      ensures (wgl, ok) == Interop.CloseDevice(old(wgl), device)
      ensures log.events == old(log.events) + [Effect.DXCloseDevice(device)]
    {
      var r := Interop.CloseDevice(wgl, device);
      wgl, ok := r.0, r.1;
      log.Emit(Effect.DXCloseDevice(device));
    }

    method DXLockObjects(device: int, handle: int) returns (ok: bool)
      requires Valid()
      modifies this, log
      ensures Valid() && state == old(state)
      ensures (wgl, ok) == Interop.LockObject(old(wgl), device, handle)
      ensures log.events == old(log.events) + [Effect.DXLockObjects(device, handle)]
    {
      var r := Interop.LockObject(wgl, device, handle);
      wgl, ok := r.0, r.1;
      log.Emit(Effect.DXLockObjects(device, handle));
    }

    method DXUnlockObjects(device: int, handle: int) returns (ok: bool)
      requires Valid()
      modifies this, log
      ensures Valid() && state == old(state)
      ensures (wgl, ok) == Interop.UnlockObject(old(wgl), device, handle)
      ensures log.events == old(log.events) + [Effect.DXUnlockObjects(device, handle)]
    {
      var r := Interop.UnlockObject(wgl, device, handle);
      wgl, ok := r.0, r.1;
      log.Emit(Effect.DXUnlockObjects(device, handle));
    }
  }

  datatype ImageKind = WriteableBitmapKind | D3DImageKind

  datatype PixelFormat = Bgra32 | Default

  /** A WPF `ImageSource`: a `WriteableBitmap` (with a back buffer the CPU writes and a
      list of dirty rectangles) or a `D3DImage`. Its pixel size is fixed at creation. */
  class ImageSource {
    const log: EffectLog
    const kind: ImageKind
    const pixelWidth: int
    const pixelHeight: int
    const format: PixelFormat
    var backBuffer: Option<Frame>
    var dirty: seq<Rect>
    var locked: bool

    /** `new WriteableBitmap(width, height, 96, 96, format, null)`. */
    constructor WriteableBitmap(log: EffectLog, width: int, height: int, format: PixelFormat)
      ensures this.log == log && kind == WriteableBitmapKind
      ensures pixelWidth == width && pixelHeight == height && this.format == format
      ensures backBuffer == None && dirty == [] && !locked
    {
      this.log := log;
      kind := WriteableBitmapKind;
      pixelWidth, pixelHeight := width, height;
      this.format := format;
      backBuffer, dirty, locked := None, [], false;
    }

    /** `new D3DImage()`: no back buffer, so no pixels. */
    constructor D3DImage(log: EffectLog)
      ensures this.log == log && kind == D3DImageKind
      ensures pixelWidth == 0 && pixelHeight == 0 && format == Default
      ensures backBuffer == None && dirty == [] && !locked
    {
      this.log := log;
      kind := D3DImageKind;
      pixelWidth, pixelHeight := 0, 0;
      format := Default;
      backBuffer, dirty, locked := None, [], false;
    }

    method Lock()
      modifies this, log
      ensures locked && backBuffer == old(backBuffer) && dirty == old(dirty)
      ensures log.events == old(log.events) + [LockBitmap]
    {
      locked := true;
      log.Emit(LockBitmap);
    }

    method Unlock()
      modifies this, log
      ensures !locked && backBuffer == old(backBuffer) && dirty == old(dirty)
      ensures log.events == old(log.events) + [UnlockBitmap]
    {
      locked := false;
      log.Emit(UnlockBitmap);
    }

    method AddDirtyRect(area: Rect)
      modifies this, log
      ensures dirty == old(dirty) + [area] && backBuffer == old(backBuffer) && locked == old(locked)
      ensures log.events == old(log.events) + [Effect.AddDirtyRect(area)]
    {
      dirty := dirty + [area];
      log.Emit(Effect.AddDirtyRect(area));
    }

    /** `CopyMemory(BackBuffer, data, length)`: the back buffer now holds the mapped data. */
    method CopyIntoBackBuffer(data: Option<Frame>, length: int)
      modifies this, log
      ensures backBuffer == data && dirty == old(dirty) && locked == old(locked)
      ensures log.events == old(log.events) + [CopyMemory(length)]
    {
      backBuffer := data;
      log.Emit(CopyMemory(length));
    }
  }
}
