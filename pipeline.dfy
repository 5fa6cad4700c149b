/** The CPU-mediated hand-off as values: the ring of pixel-pack buffer names, what each
    buffer holds, and the `_hasRenderedAFrame` flag. `Step` is one `Swap`; `Run` is a
    sequence of them; the latency theorem says which rendered frame each swap delivers.
    The effect lists a swap, an allocation and a deletion emit are defined here too. */
module Pipeline {
  import opened Common
  import opened Graphics

  predicate Distinct(s: seq<int>)
  {
    forall i, j :: 0 <= i < j < |s| ==> s[i] != s[j]
  }

  /** The ring after `RotatePixelBuffers`: every name moves one slot towards the front
      and the front name goes to the back. */
  function RotateLeft(s: seq<int>): (r: seq<int>)
    ensures |r| == |s|
    ensures forall i :: 0 <= i < |s| - 1 ==> r[i] == s[i + 1]
    ensures |s| > 0 ==> r[|s| - 1] == s[0]
    ensures multiset(r) == multiset(s)
  {
    if |s| == 0 then s
    else
      assert s == [s[0]] + s[1..];
      s[1..] + [s[0]]
  }

  /** With a ring of one buffer the rotation changes nothing. */
  lemma RotateSingleton(s: seq<int>)
    requires |s| == 1
    ensures RotateLeft(s) == s
  {
  }

  lemma RotatePreservesDistinct(s: seq<int>)
    requires Distinct(s)
    ensures Distinct(RotateLeft(s))
  {
    var r := RotateLeft(s);
    forall i, j | 0 <= i < j < |r| ensures r[i] != r[j] {
      if j < |s| - 1 {
        assert r[i] == s[i + 1] && r[j] == s[j + 1];
      } else {
        assert r[i] == s[i + 1] && r[j] == s[0];
      }
    }
  }

  datatype RingState = RingState(ring: seq<int>, contents: map<int, Option<Frame>>, hasRenderedAFrame: bool)

  /** One `Swap` on ring state when the bound framebuffer shows `frame`: the frame is read
      into the buffer at slot 0, the ring rotates unless this is the first swap ever, and
      the target receives what the buffer now at slot 0 holds. */
  function Step(st: RingState, frame: Frame): (r: (RingState, Option<Frame>))
    requires |st.ring| >= 1
    ensures r.0.hasRenderedAFrame
    ensures |r.0.ring| == |st.ring| && multiset(r.0.ring) == multiset(st.ring)
    ensures r.0.contents.Keys == st.contents.Keys
    ensures st.ring[0] in st.contents ==> Lookup(r.0.contents, st.ring[0]) == Some(frame)
    ensures forall b :: b != st.ring[0] ==> Lookup(r.0.contents, b) == Lookup(st.contents, b)
    ensures (!st.hasRenderedAFrame || |st.ring| == 1) && st.ring[0] in st.contents ==> r.1 == Some(frame)
    ensures st.hasRenderedAFrame && |st.ring| >= 2 && Distinct(st.ring) ==> r.1 == Lookup(st.contents, st.ring[1])
  {
    var contents := Write(st.contents, st.ring[0], Some(frame));
    var ring := if st.hasRenderedAFrame then RotateLeft(st.ring) else st.ring;
    (RingState(ring, contents, true), Lookup(contents, ring[0]))
  }

  /** The ring state after one swap per frame of `frames`, in order. */
  function Run(init: RingState, frames: seq<Frame>): (r: RingState)
    requires |init.ring| >= 1
    ensures |r.ring| == |init.ring| && multiset(r.ring) == multiset(init.ring)
    ensures |frames| > 0 ==> r.hasRenderedAFrame
    decreases |frames|
  {
    if |frames| == 0 then init
    else Step(Run(init, frames[..|frames| - 1]), frames[|frames| - 1]).0
  }

  /** What the target receives from the last swap of `frames`. */
  function Delivery(init: RingState, frames: seq<Frame>): Option<Frame>
    requires |init.ring| >= 1 && |frames| >= 1
  {
    Step(Run(init, frames[..|frames| - 1]), frames[|frames| - 1]).1
  }

  /** The ring just after `Initialize`: `n` distinct buffers, none written, no frame yet. */
  ghost predicate FreshRing(st: RingState, n: nat)
  {
    n >= 1 && |st.ring| == n && Distinct(st.ring) && !st.hasRenderedAFrame &&
    forall j :: 0 <= j < n ==> st.ring[j] in st.contents && st.contents[st.ring[j]] == None
  }

  /** What slot `j` holds after the swaps of `frames`: the frame of swap
      `|frames| - n + 1 + j` (counting from 1), where swaps before the second one count
      as never written, except that slot 0 still holds frame 1 after the first swap. */
  function Expected(frames: seq<Frame>, n: nat, j: nat): Option<Frame>
    requires |frames| >= 1 && j < n
  {
    var k := |frames|;
    var written := k - n + 1 + j;
    if k == 1 && j == 0 then Some(frames[0])
    else if written >= 2 then Some(frames[written - 1])
    else None
  }

  ghost predicate AfterSwaps(st: RingState, frames: seq<Frame>, n: nat)
    requires |frames| >= 1
  {
    n >= 1 && |st.ring| == n && Distinct(st.ring) && st.hasRenderedAFrame &&
    forall j :: 0 <= j < n ==> st.ring[j] in st.contents && st.contents[st.ring[j]] == Expected(frames, n, j)
  }

  lemma FirstSwap(init: RingState, frame: Frame, n: nat)
    requires FreshRing(init, n)
    ensures AfterSwaps(Step(init, frame).0, [frame], n)
  {
    var r := Step(init, frame).0;
    assert r.ring == init.ring;
    forall j | 0 <= j < n
      ensures r.ring[j] in r.contents && r.contents[r.ring[j]] == Expected([frame], n, j)
    {
      if j > 0 {
        assert init.ring[j] != init.ring[0];
      }
    }
  }

  lemma LaterSwap(st: RingState, prev: seq<Frame>, frame: Frame, n: nat)
    requires |prev| >= 1 && AfterSwaps(st, prev, n)
    ensures AfterSwaps(Step(st, frame).0, prev + [frame], n)
  {
    var frames := prev + [frame];
    var r := Step(st, frame).0;
    assert r.ring == RotateLeft(st.ring);
    RotatePreservesDistinct(st.ring);
    forall j | 0 <= j < n
      ensures r.ring[j] in r.contents && r.contents[r.ring[j]] == Expected(frames, n, j)
    {
      if j < n - 1 {
        assert r.ring[j] == st.ring[j + 1] != st.ring[0];
        assert Expected(frames, n, j) == Expected(prev, n, j + 1);
      } else {
        assert r.ring[j] == st.ring[0];
      }
    }
  }

  lemma {:induction false} RunAfterSwaps(init: RingState, frames: seq<Frame>, n: nat)
    requires FreshRing(init, n) && |frames| >= 1
    ensures AfterSwaps(Run(init, frames), frames, n)
    decreases |frames|
  {
    var k := |frames|;
    var prev := frames[..k - 1];
    if k == 1 {
      assert prev == [];
      assert frames == [frames[0]];
      FirstSwap(init, frames[0], n);
    } else {
      RunAfterSwaps(init, prev, n);
      LaterSwap(Run(init, prev), prev, frames[k - 1], n);
      assert prev + [frames[k - 1]] == frames;
    }
  }

  /** The pipeline-latency theorem. On a fresh ring of `n` buffers, the k-th swap
      (k = |frames|) delivers: frame 1 when k = 1; a buffer never written when
      2 <= k <= n; frame k - n + 1 when k > n. With n = 1 every swap delivers the frame
      it just read. */
  lemma {:induction false} Latency(init: RingState, frames: seq<Frame>, n: nat)
    requires FreshRing(init, n) && |frames| >= 1
    ensures |frames| == 1 ==> Delivery(init, frames) == Some(frames[0])
    ensures 2 <= |frames| <= n ==> Delivery(init, frames) == None
    ensures |frames| > n ==> Delivery(init, frames) == Some(frames[|frames| - n])
    ensures n == 1 ==> Delivery(init, frames) == Some(frames[|frames| - 1])
  {
    RunAfterSwaps(init, frames, n);
    var r := Run(init, frames);
    assert Delivery(init, frames) == Lookup(r.contents, r.ring[0]);
    assert r.contents[r.ring[0]] == Expected(frames, n, 0);
  }

  /** Two buffers, frames A, B, A: the first swap shows A, the second a buffer never
      written, the third B. */
  lemma TwoDeepPipeline(init: RingState, a: Frame, b: Frame)
    requires FreshRing(init, 2)
    ensures Delivery(init, [a]) == Some(a)
    ensures Delivery(init, [a, b]) == None
    ensures Delivery(init, [a, b, a]) == Some(b)
  {
    Latency(init, [a], 2);
    Latency(init, [a, b], 2);
    Latency(init, [a, b, a], 2);
  }

  /** The calls one successful `Swap` makes, in order, when slot 0 holds `first` before
      the rotation and `delivered` after it, into a `width` x `height` target. */
  function SwapEffects(framebuffer: int, first: int, delivered: int, width: int, height: int): seq<Effect>
  {
    [BindFramebuffer(framebuffer), BindPixelPackBuffer(first), ReadBuffer(ColorAttachment0),
     ReadPixels(Rect(0, 0, width, height)), BindFramebuffer(0),
     BindPixelPackBuffer(delivered), LockBitmap, MapBuffer,
     CopyMemory(CopyLength(width, height)), AddDirtyRect(Rect(0, 0, width, height)),
     UnlockBitmap, UnmapBuffer, BindPixelPackBuffer(0)]
  }

  /** In one swap the target is locked once, before the buffer is mapped; the copy of
      `4 * width * height` bytes and the full-surface dirty rectangle come while it is
      locked; it is unlocked once, before the buffer is unmapped. */
  lemma SwapLockDiscipline(framebuffer: int, first: int, delivered: int, width: int, height: int)
    ensures var e := SwapEffects(framebuffer, first, delivered, width, height);
      (forall i :: 0 <= i < |e| ==> (e[i] == LockBitmap <==> i == 6)) &&
      (forall i :: 0 <= i < |e| ==> (e[i] == MapBuffer <==> i == 7)) &&
      (forall i :: 0 <= i < |e| ==> (e[i].CopyMemory? <==> i == 8)) &&
      (forall i :: 0 <= i < |e| ==> (e[i].AddDirtyRect? <==> i == 9)) &&
      (forall i :: 0 <= i < |e| ==> (e[i] == UnlockBitmap <==> i == 10)) &&
      (forall i :: 0 <= i < |e| ==> (e[i] == UnmapBuffer <==> i == 11)) &&
      e[8] == CopyMemory(CopyLength(width, height)) &&
      e[9] == AddDirtyRect(Rect(0, 0, width, height))
  {
  }

  /** `GL.GenBuffer`, bind, `GL.BufferData` for one new buffer. */
  function AllocateOne(st: GlState, size: int): GlState
  {
    BufferStorage(st.(nextName := st.nextName + 1, packBuffer := st.nextName), size)
  }

  /** The GL state after `count` rounds of the allocation loop. */
  function Allocate(st: GlState, count: nat, size: int): (r: GlState)
    requires st.nextName >= 1
    ensures r.nextName == st.nextName + count
  {
    if count == 0 then st else AllocateOne(Allocate(st, count - 1, size), size)
  }

  /** The allocation loop gives each of the `count` new names storage of `size` bytes
      that has never been written, changes no other buffer, and leaves the last name bound. */
  lemma {:induction false} AllocateProperties(st: GlState, count: nat, size: int)
    requires st.nextName >= 1
    ensures var r := Allocate(st, count, size);
      (forall b :: st.nextName <= b < st.nextName + count ==>
         b in r.sizes && r.sizes[b] == size && b in r.contents && r.contents[b] == None) &&
      (forall b :: !(st.nextName <= b < st.nextName + count) ==>
         (b in r.sizes <==> b in st.sizes) && (b in st.sizes ==> r.sizes[b] == st.sizes[b]) &&
         (b in r.contents <==> b in st.contents) && Lookup(r.contents, b) == Lookup(st.contents, b)) &&
      r.colors == st.colors && r.framebuffer == st.framebuffer && r.status == st.status &&
      r.viewport == st.viewport &&
      r.packBuffer == if count == 0 then st.packBuffer else st.nextName + count - 1
  {
    if count > 0 {
      AllocateProperties(st, count - 1, size);
    }
  }

  /** The `i`-th call of the allocation loop's trace: generate, bind, allocate, per buffer. */
  function AllocateEffectAt(start: int, i: nat, size: int): Effect
  {
    if i % 3 == 0 then GenBuffer(start + i / 3)
    else if i % 3 == 1 then BindPixelPackBuffer(start + i / 3)
    else BufferData(size)
  }

  function AllocateEffects(start: int, count: nat, size: int): (r: seq<Effect>)
    ensures |r| == 3 * count
    ensures forall i :: 0 <= i < |r| ==> r[i] == AllocateEffectAt(start, i, size)
  {
    if count == 0 then []
    else AllocateEffects(start, count - 1, size) +
         [GenBuffer(start + count - 1), BindPixelPackBuffer(start + count - 1), BufferData(size)]
  }

  /** The GL state after `GL.DeleteBuffer` on each of `names`, in order. */
  function DeleteAll(st: GlState, names: seq<int>): (r: GlState)
    ensures forall b :: b in names ==> b !in r.sizes && b !in r.contents
    ensures forall b :: b !in names ==>
      (b in r.sizes <==> b in st.sizes) && (b in st.sizes ==> r.sizes[b] == st.sizes[b]) &&
      (b in r.contents <==> b in st.contents) && Lookup(r.contents, b) == Lookup(st.contents, b)
    ensures r.nextName == st.nextName && r.colors == st.colors && r.framebuffer == st.framebuffer
    ensures r.status == st.status && r.viewport == st.viewport
    decreases |names|
  {
    if |names| == 0 then st
    else DeleteBufferState(DeleteAll(st, names[..|names| - 1]), names[|names| - 1])
  }

  /** The trace of the deletion loop: one `DeleteBuffer` per name, in ring order. */
  function DeleteEffects(names: seq<int>): (r: seq<Effect>)
    ensures |r| == |names|
    ensures forall i :: 0 <= i < |names| ==> r[i] == DeleteBuffer(names[i])
    decreases |names|
  {
    if |names| == 0 then []
    else DeleteEffects(names[..|names| - 1]) + [DeleteBuffer(names[|names| - 1])]
  }

  /** Deleting a ring of distinct names deletes each of its names exactly once and
      nothing else. */
  lemma DeletesEachNameOnce(names: seq<int>)
    requires Distinct(names)
    ensures var e := DeleteEffects(names);
      (forall i :: 0 <= i < |e| ==> e[i].DeleteBuffer? && e[i].buffer in names) &&
      (forall b :: b in names ==> exists i :: 0 <= i < |e| && e[i] == DeleteBuffer(b)) &&
      (forall i, j :: 0 <= i < j < |e| ==> e[i] != e[j])
  {
    var e := DeleteEffects(names);
    forall b | b in names ensures exists i :: 0 <= i < |e| && e[i] == DeleteBuffer(b) {
      var i :| 0 <= i < |names| && names[i] == b;
      assert e[i] == DeleteBuffer(names[i]);
    }
    forall i, j | 0 <= i < j < |e| ensures e[i] != e[j] {
      assert e[i] == DeleteBuffer(names[i]) && e[j] == DeleteBuffer(names[j]);
    }
  }
}
