# GLWpfControl frame hand-off, modelled in Dafny

GLWpfControl hosts OpenTK rendering inside a WPF element. The OpenGL side draws each frame
into a framebuffer. A swap strategy then hands the frame to a WPF `ImageSource`.

This project models that hand-off and proves properties of the model:

- **The pixel-buffer ring.** `InteropBitmapSwapStrategy` and `D3DImageSwapStrategy` both keep
  an array of pixel-pack buffer names.
  - `Initialize` allocates the array.
  - Each `Swap` starts a read of the bound framebuffer into slot 0. It then rotates the array,
    except on the very first swap, and copies the buffer now at slot 0 into the target
    `WriteableBitmap`.
- **The dispose-once state machine.** `Dispose(bool)` is guarded by `_disposedValue`.
  - The explicit `Dispose()` deletes the ring.
  - The finalizer does not delete the ring.
  - The D3D strategy also unregisters its interop depth object and closes its interop device.
- **The renderer.** `GLWpfControlRenderer` builds a framebuffer whose colour texture is a
  Direct3D surface shared through WGL_NV_DX_interop.
  - `BeginUpdate` / `EndUpdate` lock and unlock the shared colour object around each frame.
  - `UpdateImage` hands the frame to its strategy.
  - `DeleteBuffers` tears the framebuffer and the interop objects down.

How the model is laid out:

- `Graphics.Gl` stands for the GL context and the WGL_NV_DX_interop driver state. It is a
  class whose state is a value, `GlState` plus `Interop.InteropState`.
- `Graphics.ImageSource` stands for the WPF bitmap.
- Both append every call they receive to one shared `EffectLog`. The order of calls across
  GL, WGL and the bitmap is therefore one trace, and contracts state it exactly.
- The ring logic is written once, as values, in `Pipeline`. `Step` is one swap; `Run` is a
  sequence of them. The imperative methods are proved against these functions:
  - `PixelBuffers.RotatePixelBuffers` works in place on an `array<int>`.
  - The allocation and deletion loops.
  - `SwapPixelBuffers`, which both strategy classes call.

Frame latency, as the code behaves (`Pipeline.Latency`): on a ring of N buffers, the K-th swap
delivers

- frame 1 when K = 1;
- a buffer that was never written when 2 ≤ K ≤ N;
- frame K − N + 1 when K > N.

With N = 1, every swap delivers the frame it just read.

Consequences of the code as written, which the model follows:

- **A hole after the first frame.** Swaps 2..N deliver a buffer that was never written, so
  frame 1 is shown once and is then followed by N − 1 swaps with no frame. Steady state
  (frame K − N + 1) starts only at swap N + 1.
  - With two buffers, the second swap shows a buffer never written, not the first frame
    (`Pipeline.TwoDeepPipeline`, `InteropBitmap.TwoBufferScenario`).
- **No size check.** `Swap` does not check that the target's size matches the size the ring
  was allocated for. The model reads and copies `target.PixelWidth × target.PixelHeight`, as
  the code does.
- **The D3D strategy's `depthSurface` field is never assigned**
  (src/GLWpfControl/D3DImageSwapStrategy.cs:39). The model makes it a constructor parameter
  `Option<int>`.
  - With `None`, which is the code as it stands, `Initialize` raises a null reference at
    line 57. By then it has opened an interop device, created and bound a framebuffer, and
    created a depth texture.
  - With `Some(s)`, both `DXRegisterObjectNV` calls register the same surface under the
    *depth* texture's name. The colour texture is never registered. `Dispose` unregisters
    only the depth object and never `interopColorBuffer` (`D3DImage.DisposeOrder`).
  - That the second registration is then still registered after the device is closed
    (`D3DImage.ColorObjectOutlivesDispose`) rests on a modelling assumption:
    `Interop.CloseDevice` leaves a device's registrations in place.
  - The framebuffer status is ignored, so an incomplete framebuffer still initialises.
- **`DeleteBuffers` uses `DeleteRenderbuffer` on the colour texture**
  (src/GLWpfControl/GLWpfControlRenderer.cs:128). The colour buffer was created by
  `GenTexture`. The model records the call as written.
- **32-bit sizes.** The buffer size `4 * width * height` is a 32-bit `int` product: it wraps
  (`Common.PixelBytes`). The copy length is its `uint` cast (`Common.CopyLength`).

Exceptions become results. The renderer's constructor becomes `GLWpfControlRenderer.Create`,
returning `Result<GLWpfControlRenderer>`. The strategies' methods return an `Outcome`:

- `NullReference` for a ring used before `Initialize`, or for the D3D strategy's missing
  surface;
- `IndexOutOfRange` for an empty ring;
- `Overflow` for a negative buffer count;
- `InvalidCast` for a non-`WriteableBitmap` target;
- `GraphicsError` for an incomplete framebuffer in the renderer;
- `NotImplemented` for `UpdateImageHardware`.

## Model

| member | source | states |
|---|---|---|
| Common.Wrap32 | src/GLWpfControl/InteropBitmapSwapStrategy.cs:28 | C# unchecked `int` arithmetic: the result is in the 32-bit range, congruent to the exact value modulo 2^32, and equal to it when it fits |
| Common.SizesAreFourBytesPerPixel | src/GLWpfControl/InteropBitmapSwapStrategy.cs:28 | when `4*width*height` fits in an `int`, the buffer size and the copy length are both exactly four bytes per pixel |
| Interop.OpenDevice | src/GLWpfControl/D3DImageSwapStrategy.cs:51 | `wglDXOpenDeviceNV` returns a new non-null device handle, which is added to the open devices; objects and locks are unchanged |
| Interop.RegisterObject | src/GLWpfControl/D3DImageSwapStrategy.cs:57-58 | on an open device: a new non-null handle registered as (device, resource, GL name); on a device that is not open: NULL, nothing changes |
| Interop.UnregisterObject | src/GLWpfControl/D3DImageSwapStrategy.cs:155 | succeeds exactly when the device owns the handle; then that object (and any lock on it) is gone; otherwise nothing changes |
| Interop.CloseDevice | src/GLWpfControl/D3DImageSwapStrategy.cs:156 | succeeds exactly on an open device, which is removed; registered objects are not unregistered by closing |
| Interop.LockObject | src/GLWpfControl/GLWpfControlRenderer.cs:141 | succeeds exactly on an owned, unlocked object, which becomes locked; otherwise nothing changes |
| Interop.UnlockObject | src/GLWpfControl/GLWpfControlRenderer.cs:149 | succeeds exactly on an owned, locked object, which becomes unlocked |
| Interop.LockUnlockBracket | src/GLWpfControl/GLWpfControlRenderer.cs:139-150 | lock then unlock of an owned unlocked object both succeed, and the unlock restores exactly the state before the lock |
| Interop.LockIsNotReentrant | src/GLWpfControl/GLWpfControlRenderer.cs:141 | a second lock without an unlock fails and changes nothing |
| Interop.SecondRegistrationOutlivesClose | src/GLWpfControl/D3DImageSwapStrategy.cs:57-64 | registering twice, unregistering the first handle and closing the device leaves the second handle registered while the device is closed |
| Pipeline.RotateLeft | src/GLWpfControl/InteropBitmapSwapStrategy.cs:41-49 | each name moves one slot towards the front and the front name goes to the back; the length and the multiset of names are kept |
| Pipeline.RotatePreservesDistinct | src/GLWpfControl/InteropBitmapSwapStrategy.cs:41-49 | rotation keeps the ring's names pairwise distinct |
| Pipeline.RotateSingleton | src/GLWpfControl/InteropBitmapSwapStrategy.cs:44-48 | a ring of one buffer is unchanged by rotation |
| Pipeline.Step | src/GLWpfControl/InteropBitmapSwapStrategy.cs:51-77 | one swap sets the flag; writes the frame into the old slot-0 buffer and no other; keeps the ring a permutation; delivers the frame just read on the first swap or with one buffer; otherwise delivers what the old slot 1 held |
| Pipeline.Run | src/GLWpfControl/InteropBitmapSwapStrategy.cs:51-77 | a sequence of swaps keeps the ring a permutation of the initial ring, and the flag is set after any swap |
| Pipeline.RunAfterSwaps | src/GLWpfControl/InteropBitmapSwapStrategy.cs:51-77 | after K swaps on a fresh ring of N buffers, slot j holds frame K − N + 1 + j (among frames 2..K), frame 1 in slot 0 after the first swap, and never-written otherwise |
| Pipeline.Latency | src/GLWpfControl/InteropBitmapSwapStrategy.cs:51-77 | the K-th swap delivers frame 1 for K = 1, a never-written buffer for 2 ≤ K ≤ N, frame K − N + 1 for K > N, and the current frame when N = 1 |
| Pipeline.TwoDeepPipeline | src/GLWpfControl/InteropBitmapSwapStrategy.cs:60-63 | with two buffers and frames A, B, A the target shows A, then a never-written buffer, then B |
| Pipeline.SwapLockDiscipline | src/GLWpfControl/InteropBitmapSwapStrategy.cs:65-72 | in one swap the bitmap is locked once before the map, the copy of `(uint)(4*w*h)` bytes and the full dirty rectangle come inside the lock, and the unlock comes once before the unmap |
| Pipeline.AllocateProperties | src/GLWpfControl/InteropBitmapSwapStrategy.cs:29-35 | the allocation loop gives each new name storage of the computed size that was never written, changes no other buffer, and leaves the last name bound |
| Pipeline.AllocateEffects | src/GLWpfControl/InteropBitmapSwapStrategy.cs:29-35 | the allocation loop issues generate, bind, `BufferData(size)` per buffer, three calls per buffer in order |
| Pipeline.DeleteAll | src/GLWpfControl/InteropBitmapSwapStrategy.cs:98-101 | after deleting the ring every ring name is gone and every other buffer is unchanged |
| Pipeline.DeletesEachNameOnce | src/GLWpfControl/InteropBitmapSwapStrategy.cs:98-101 | on a ring of distinct names, the deletion trace deletes only ring names, deletes every ring name, and deletes no name twice |
| PixelBuffers.AllocatePixelBuffers | src/GLWpfControl/InteropBitmapSwapStrategy.cs:25-35 | the loop fills a new array with consecutive fresh names; the GL state and the call trace are those of `Allocate`/`AllocateEffects` |
| PixelBuffers.AllocateRing | src/GLWpfControl/InteropBitmapSwapStrategy.cs:25-37 | a new array of `count` distinct fresh names, each with storage of `PixelBytes(width, height)` and nothing written, then the pixel-pack binding reset |
| PixelBuffers.RotatePixelBuffers | src/GLWpfControl/InteropBitmapSwapStrategy.cs:41-49 | the in-place loop leaves the array equal to `RotateLeft` of its old contents |
| PixelBuffers.DeletePixelBuffers | src/GLWpfControl/InteropBitmapSwapStrategy.cs:98-101 | the loop's GL state and call trace are those of `DeleteAll`/`DeleteEffects` on the ring |
| PixelBuffers.SwapPixelBuffers | src/GLWpfControl/InteropBitmapSwapStrategy.cs:51-74 | a null ring or an empty ring fails after binding the framebuffer; otherwise the ring, the buffer contents and the bitmap's back buffer are those of `Step`, the whole bitmap is marked dirty and left unlocked, and the calls are exactly `SwapEffects` |
| InteropBitmap.DisposeEffects | src/GLWpfControl/InteropBitmapSwapStrategy.cs:92-106 | a disposed strategy or the finalizer path deletes nothing; any deletion is exactly the ring's |
| InteropBitmap.DisposeDeletesAtMostOnce | src/GLWpfControl/InteropBitmapSwapStrategy.cs:92-106 | on an initialised ring, whatever two dispose calls follow each other (explicit or from the finalizer), the first succeeds, the second does nothing and no buffer is deleted twice; on a ring never initialised, `DisposeCore` states instead that `Dispose(true)` raises before the flag is set |
| InteropBitmap.InteropBitmapSwapStrategy.Initialize | src/GLWpfControl/InteropBitmapSwapStrategy.cs:22-38 | a negative count overflows and changes nothing; otherwise a new array of `count` distinct fresh names, each with storage of the 32-bit size `4*w*h` and nothing written, and the pixel-pack binding reset |
| InteropBitmap.InteropBitmapSwapStrategy.Swap | src/GLWpfControl/InteropBitmapSwapStrategy.cs:51-77 | the swap of `SwapPixelBuffers` with the strategy's own flag; the flag is set exactly when the swap succeeded |
| InteropBitmap.InteropBitmapSwapStrategy.SwapImageSource | src/GLWpfControl/InteropBitmapSwapStrategy.cs:79-82 | a target that is not a `WriteableBitmap` fails the cast and nothing changes; otherwise it is `Swap` |
| InteropBitmap.InteropBitmapSwapStrategy.MakeTarget | src/GLWpfControl/InteropBitmapSwapStrategy.cs:84-87 | a new `width` × `height` Bgra32 `WriteableBitmap`, with nothing copied in yet |
| InteropBitmap.InteropBitmapSwapStrategy.DisposeCore | src/GLWpfControl/InteropBitmapSwapStrategy.cs:92-106 | runs once: deletes the ring only when `disposing`, raises a null reference on an uninitialised ring only then, and sets the disposed flag exactly when it did not raise |
| InteropBitmap.InteropBitmapSwapStrategy.Finalize | src/GLWpfControl/InteropBitmapSwapStrategy.cs:108-111 | the finalizer marks the strategy disposed; the GL and interop state, the call trace, the ring, the rendered flag and the finalizer suppression are unchanged |
| InteropBitmap.InteropBitmapSwapStrategy.Dispose | src/GLWpfControl/InteropBitmapSwapStrategy.cs:113-117 | `Dispose(true)`, and the finalizer is suppressed exactly when it succeeded |
| InteropBitmap.DrawAndSwap | src/GLWpfControl/InteropBitmapSwapStrategy.cs:51-77 | drawing a frame and swapping moves the strategy's ring, buffer contents and flag exactly as `Step` does, and the bitmap shows what `Step` delivers |
| InteropBitmap.TwoBufferScenario | src/GLWpfControl/InteropBitmapSwapStrategy.cs:51-77 | with two buffers, frames 1, 2, 3 show frame 1, a never-written buffer, and frame 2 |
| D3DImage.DisposeEffects | src/GLWpfControl/D3DImageSwapStrategy.cs:143-160 | a disposed strategy makes no call |
| D3DImage.DisposeOrder | src/GLWpfControl/D3DImageSwapStrategy.cs:143-160 | a first dispose deletes (only when `disposing`) before it unregisters the depth object, and closes the device last; it unregisters nothing else and closes nothing else |
| D3DImage.D3DImageSwapStrategy.constructor | src/GLWpfControl/D3DImageSwapStrategy.cs:24-39 | every handle starts at zero, no ring, nothing rendered or disposed; the surface is given (the source leaves it null) |
| D3DImage.D3DImageSwapStrategy.CreateFramebuffer | src/GLWpfControl/D3DImageSwapStrategy.cs:51-56 | opens an interop device, then creates and binds a framebuffer, then creates the depth texture |
| D3DImage.D3DImageSwapStrategy.AttachSurface | src/GLWpfControl/D3DImageSwapStrategy.cs:57-73 | registers the surface twice under the depth texture's name, attaches depth and a new colour texture, queries and ignores the status, unbinds |
| D3DImage.D3DImageSwapStrategy.Initialize | src/GLWpfControl/D3DImageSwapStrategy.cs:41-89 | with no surface: null reference after four calls, nothing registered, no ring; with one: two registrations both naming the depth texture, success whatever the framebuffer status, then the ring allocation of the other strategy (or overflow on a negative count) |
| D3DImage.D3DImageSwapStrategy.Swap | src/GLWpfControl/D3DImageSwapStrategy.cs:102-128 | the same ring step as the other strategy, with the dispose flags, the interop handles and `FrameBuffer`, the depth texture and the colour texture untouched |
| D3DImage.D3DImageSwapStrategy.SwapImageSource | src/GLWpfControl/D3DImageSwapStrategy.cs:130-133 | a target that is not a `WriteableBitmap` fails the cast and nothing changes; otherwise it is `Swap`; the dispose flags, the interop handles and `FrameBuffer`, the depth texture and the colour texture are unchanged either way |
| D3DImage.D3DImageSwapStrategy.MakeTarget | src/GLWpfControl/D3DImageSwapStrategy.cs:135-138 | a new `D3DImage`, whatever size is asked for |
| D3DImage.D3DImageSwapStrategy.DisposeCore | src/GLWpfControl/D3DImageSwapStrategy.cs:143-160 | runs once; deletes the ring only when `disposing`; on both paths unregisters the depth object then closes the device; the interop state afterwards is that of those two calls; the ring, the other flags, the interop handles, `FrameBuffer` and the depth and colour textures are unchanged |
| D3DImage.D3DImageSwapStrategy.Finalize | src/GLWpfControl/D3DImageSwapStrategy.cs:162-165 | `Dispose(false)`: no buffer deleted and GL state unchanged; on the first call, depth-object unregistration then device close on the unchanged handles, with the resulting interop state; the flags other than `disposedValue`, the ring, the interop handles, `FrameBuffer` and the depth and colour textures are unchanged |
| D3DImage.D3DImageSwapStrategy.Dispose | src/GLWpfControl/D3DImageSwapStrategy.cs:167-171 | `Dispose(true)`, and the finalizer is suppressed exactly when it succeeded; the ring, the rendered flag, the interop handles, `FrameBuffer` and the depth and colour textures are unchanged |
| D3DImage.InitializeWithoutSurface | src/GLWpfControl/D3DImageSwapStrategy.cs:56-58 | as written, `Initialize` always fails with a null reference and never allocates the ring |
| D3DImage.ColorObjectOutlivesDispose | src/GLWpfControl/D3DImageSwapStrategy.cs:63-64 | with a surface and an incomplete framebuffer, `Initialize` and `Dispose` succeed, the device is closed and the second registration is still registered |
| D3DImage.SwapIntoOwnTarget | src/GLWpfControl/D3DImageSwapStrategy.cs:130-138 | swapping into the strategy's own `MakeTarget` result fails on the cast |
| Renderer.WritableBitmapSwapStrategy.MakeTarget | src/GLWpfControl/ISwapStrategy.cs:16 | a new `width` × `height` Bgra32 `WriteableBitmap` (assumed: that class's code is not part of this model) |
| Renderer.RegistrationRoundTrip | src/GLWpfControl/GLWpfControlRenderer.cs:124-132 | opening a device and registering one object, then unregistering it and closing the device, both succeed and restore the devices, objects and locks |
| Renderer.GLWpfControlRenderer.Create | src/GLWpfControl/GLWpfControlRenderer.cs:43-122 | an incomplete framebuffer raises `GraphicsError` with its status after the setup calls and before the strategy exists; otherwise the strategy gets `Initialize(w, h, n)` then `MakeTarget(w, h)`, whose result is the fixed `Source` of size w × h, and the colour object is owned and unlocked |
| Renderer.GLWpfControlRenderer.BeginUpdate | src/GLWpfControl/GLWpfControlRenderer.cs:139-145 | locks the colour object, then binds `FrameBuffer`, then sets the viewport to (0, 0, Width, Height); from between updates it enters an update |
| Renderer.GLWpfControlRenderer.EndUpdate | src/GLWpfControl/GLWpfControlRenderer.cs:147-150 | unlocks the same object and nothing else; from inside an update it returns to between updates |
| Renderer.GLWpfControlRenderer.Width | src/GLWpfControl/GLWpfControlRenderer.cs:38 | the pixel width of `Source`; fixed, since the bitmap is never replaced, and equal to the requested width after `Create` |
| Renderer.GLWpfControlRenderer.Height | src/GLWpfControl/GLWpfControlRenderer.cs:39 | the pixel height of `Source`; fixed, and equal to the requested height after `Create` |
| Renderer.GLWpfControlRenderer.Source | src/GLWpfControl/GLWpfControlRenderer.cs:41 | the bitmap the strategy made at construction (`_bitmap`), which is read-only |
| Renderer.GLWpfControlRenderer.UpdateImage | src/GLWpfControl/GLWpfControlRenderer.cs:134-137 | exactly one `Swap(FrameBuffer, Source)` on the strategy and nothing else |
| Renderer.GLWpfControlRenderer.DeleteBuffers | src/GLWpfControl/GLWpfControlRenderer.cs:124-132 | deletes framebuffer, depth and colour, then unregisters the colour object, then closes the device; both are gone afterwards; the strategy is not disposed |
| Renderer.GLWpfControlRenderer.UpdateImageHardware | src/GLWpfControl/GLWpfControlRenderer.cs:152-171 | always raises `NotImplemented` |
| Renderer.RenderFrame | src/GLWpfControl/GLWpfControlRenderer.cs:134-150 | begin, draw, end, update: the interop state is as before, the frame is in `FrameBuffer`, the calls are in bracket order, and the strategy got one swap |
| Renderer.RendererLifetime | src/GLWpfControl/GLWpfControlRenderer.cs:43-132 | build, one frame, teardown: the interop devices and objects are as they were and the strategy saw one swap |

## Left out

- Direct3D device, texture and surface creation, present parameters and display mode
  (D3DImageSwapStrategy.cs:43-49, GLWpfControlRenderer.cs:50-76). They are foreign calls;
  `dxDevice` and `colorSurface` stand for their native handles.
- `DXSetResourceShareHandleNV`, `DrawBuffer`, `BindRenderbuffer`, `RenderbufferStorage`,
  `FramebufferRenderbuffer` (GLWpfControlRenderer.cs:83-85, 102, 105-108). They change
  nothing the model tracks.
- The `Log.OnDebugMessage` handler that throws (GLWpfControlRenderer.cs:45-48). Log.cs is not
  part of this model.
- `isHardwareRenderer` is accepted and unused, as in the code.
- `ISwapStrategy` and `ISwapStrategy<T>` are not modelled as a type. The model uses concrete
  classes instead.
  - Each strategy class has the interface's `Swap(int, ImageSource)` as `SwapImageSource`.
  - The renderer holds its strategy as the concrete class it constructs.
- Renderer.WritableBitmapSwapStrategy.MakeTarget: that class's code is not part of this
  model. It records the calls made on it, and its `MakeTarget` is assumed to return a new
  Bgra32 `WriteableBitmap` of the requested size.
- Renderer.GLWpfControlRenderer.UpdateImage: states the call made on the strategy, not what
  that strategy then does to GL or the bitmap, whose code is not part of this model.
- Renderer.GLWpfControlRenderer.Create: `Width`/`Height` are the bitmap's pixel size. This
  holds for a bitmap made at 96 dpi. DPI scaling is not modelled.
- The asynchrony of `ReadPixels` into a pixel-pack buffer. A read is modelled as complete by
  the time the buffer is mapped.
- A frame is a symbolic value. The BGRA byte layout and the memory copy's bytes are not
  modelled.
- GL calls never fail, and GL names are never reused after deletion.
- One name counter serves every `GL.Gen*` call. Real GL keeps separate name spaces for
  buffers, framebuffers, textures and renderbuffers. So equalities such as
  `depthBuffer == frameBuffer + 1`, `colorBuffer == frameBuffer + 1` in the renderer, or
  `pixelBuffers[i] == frameBuffer + 3 + i`, are facts about the model and not about the program.
- Interop.OpenDevice: never fails. `Interop.RegisterObject` fails (returns NULL) only on a
  device that is not open. `Interop.UnregisterObject`, `Interop.LockObject`,
  `Interop.UnlockObject` and `Interop.CloseDevice` fail only as their contracts state.
  - The driver returning NULL from `wglDXOpenDeviceNV` or `wglDXRegisterObjectNV` for other
    reasons is not modelled (GLWpfControlRenderer.cs:82, 87; D3DImageSwapStrategy.cs:51, 57,
    63). The code ignores such a NULL and carries on.
  - Driver error codes are not modelled.
- Renderer.GLWpfControlRenderer.Create: its exact `gl.state`, `gl.wgl` and call trace assume
  that the unseen strategy's `Initialize` and `MakeTarget` (GLWpfControlRenderer.cs:119, 121)
  make no GL or WGL call. Its `Ready()` result and `Renderer.RendererLifetime` also rely on
  the interop calls succeeding, as stated in the line above.
- `MapBuffer` returning null, and WPF's own argument checks (a non-positive
  `WriteableBitmap` size, a dirty rectangle outside the bitmap), are not modelled.
- Threads, and the garbage collector's choice of when to run a finalizer. `Finalize` is a
  method any caller can invoke.
- The D3D strategy's `device` field. The Direct3D setup that reads it at
  D3DImageSwapStrategy.cs:48-49 is left out. At line 51 `wglDXOpenDeviceNV` is modelled, with
  the parameter `dxDevice` standing for `device.NativePointer`. Also its `_bitmap` field, which
  is never used.
- A null `target`. `ImageSource` is a non-null type in the model. In the code, `Swap(fb, null)`
  raises a null reference at `target.PixelWidth` (InteropBitmapSwapStrategy.cs:57), after three
  GL calls. The renderer only ever passes its own non-null `_bitmap` (GLWpfControlRenderer.cs:136).
