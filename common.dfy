/** Values shared by every part of the model: frames, the exceptions the C# code can
    raise, outcomes, 32-bit arithmetic, and the effects recorded in the call trace. */
module Common {

  datatype Option<T> = None | Some(value: T)

  /** A fallible result, for operations that return an object or throw. */
  datatype Result<T> = Success(value: T) | Failure(error: Exception)

  /** The content of a colour attachment. `UndefinedImage` is what a framebuffer holds
      before anything is drawn into it; `Image(serial)` is the serial-th rendered picture. */
  datatype Frame = UndefinedImage | Image(serial: int)

  datatype FramebufferStatus = FramebufferComplete | FramebufferIncomplete(code: int)

  /** The exceptions that the modelled C# code raises. */
  datatype Exception =
    | NullReference          // a null field dereferenced
    | IndexOutOfRange        // `_pixelBuffers[0]` on an empty array
    | Overflow               // `new int[n]` with a negative `n`
    | InvalidCast            // `(WriteableBitmap)target` on another image kind
    | GraphicsError(status: FramebufferStatus)
    | NotImplemented

  datatype Outcome = Ok | Fail(error: Exception)

  datatype Rect = Rect(x: int, y: int, width: int, height: int)

  datatype Attachment = ColorAttachment0 | DepthAttachment

  /** One call into GL, WGL_NV_DX_interop or a WPF bitmap, in the order it was made. */
  datatype Effect =
    // OpenGL object names
    | GenBuffer(buffer: int)
    | GenFramebuffer(framebuffer: int)
    | GenTexture(texture: int)
    | GenRenderbuffer(renderbuffer: int)
    | DeleteBuffer(buffer: int)
    | DeleteFramebuffer(framebuffer: int)
    | DeleteRenderbuffer(renderbuffer: int)
    // OpenGL bindings and pixel transfer
    | BindPixelPackBuffer(buffer: int)
    | BufferData(size: int)
    | BindFramebuffer(framebuffer: int)
    | FramebufferTexture2D(attachment: Attachment, texture: int)
    | CheckFramebufferStatus
    | ReadBuffer(attachment: Attachment)
    | ReadPixels(area: Rect)
    | MapBuffer
    | UnmapBuffer
    | Viewport(area: Rect)
    | Draw(framebuffer: int, frame: Frame)
    // WGL_NV_DX_interop
    | DXOpenDevice(dxDevice: int, device: int)
    | DXRegisterObject(device: int, dxObject: int, name: int, handle: int)
    | DXUnregisterObject(device: int, handle: int)
    | DXCloseDevice(device: int)
    | DXLockObjects(device: int, handle: int)
    | DXUnlockObjects(device: int, handle: int)
    // WPF bitmap
    | LockBitmap
    | CopyMemory(length: int)
    | AddDirtyRect(area: Rect)
    | UnlockBitmap

  const TwoTo31: int := 0x8000_0000
  const TwoTo32: int := 0x1_0000_0000

  /** C#'s unchecked `int` arithmetic: the two's-complement value congruent to `x`. */
  function Wrap32(x: int): (r: int)
    ensures -TwoTo31 <= r < TwoTo31
    ensures (x - r) % TwoTo32 == 0
    ensures -TwoTo31 <= x < TwoTo31 ==> r == x
  {
    (x + TwoTo31) % TwoTo32 - TwoTo31
  }

  /** `sizeof(byte) * 4 * width * height`, evaluated in 32-bit `int`. */
  function PixelBytes(width: int, height: int): int
  {
    Wrap32(4 * width * height)
  }

  /** `(uint)(sizeof(byte) * 4 * width * height)`: the copy length passed to `CopyMemory`. */
  function CopyLength(width: int, height: int): int
  {
    (4 * width * height) % TwoTo32
  }

  /** For every image small enough for the byte count to fit in an `int`, both the
      buffer size and the copy length are exactly four bytes per pixel. */
  lemma SizesAreFourBytesPerPixel(width: int, height: int)
    requires 0 <= width && 0 <= height && 4 * width * height < TwoTo31
    ensures PixelBytes(width, height) == 4 * width * height
    ensures CopyLength(width, height) == 4 * width * height
  {
  }
}
