/** The object bookkeeping of the WGL_NV_DX_interop extension: interop devices opened
    on a Direct3D device, Direct3D resources registered as GL objects, and the lock that
    hands a registered object to GL. These are values; the `Gl` class holds one. */
module Interop {

  /** What `wglDXRegisterObjectNV` was given: the interop device, the Direct3D resource and
      the GL object name it is to appear as. */
  datatype Registration = Registration(device: int, dxObject: int, name: int)

  /** `nextHandle` is the next handle the driver hands out; handle 0 is NULL, the value
      returned on failure. */
  datatype InteropState = InteropState(
    nextHandle: int,
    devices: set<int>,
    objects: map<int, Registration>,
    locked: set<int>)

  ghost predicate Valid(st: InteropState)
  {
    st.nextHandle >= 1 &&
    (forall d :: d in st.devices ==> 0 < d < st.nextHandle) &&
    (forall h :: h in st.objects ==> 0 < h < st.nextHandle) &&
    st.locked <= st.objects.Keys
  }

  function Initial(): (st: InteropState)
    ensures Valid(st) && st.devices == {} && st.objects == map[]
  {
    InteropState(1, {}, map[], {})
  }

  /** `hObject` is registered, and registered with device `device`. */
  predicate Owns(st: InteropState, device: int, handle: int)
  {
    handle in st.objects && st.objects[handle].device == device
  }

  /** `wglDXOpenDeviceNV`: a fresh device handle. */
  function OpenDevice(st: InteropState): (r: (InteropState, int))
    requires Valid(st)
    ensures Valid(r.0) && r.1 > 0
    ensures r.1 !in st.devices && r.0.devices == st.devices + {r.1}
    ensures r.0.objects == st.objects && r.0.locked == st.locked
  {
    (st.(nextHandle := st.nextHandle + 1, devices := st.devices + {st.nextHandle}), st.nextHandle)
  }

  /** `wglDXRegisterObjectNV`: a fresh object handle when the device is open, NULL otherwise. */
  function RegisterObject(st: InteropState, device: int, dxObject: int, name: int): (r: (InteropState, int))
    requires Valid(st)
    ensures Valid(r.0) && r.0.devices == st.devices && r.0.locked == st.locked
    ensures device in st.devices ==>
      r.1 > 0 && r.1 !in st.objects &&
      r.0.objects == st.objects[r.1 := Registration(device, dxObject, name)]
    ensures device !in st.devices ==> r == (st, 0)
  {
    if device in st.devices then
      (st.(nextHandle := st.nextHandle + 1,
           objects := st.objects[st.nextHandle := Registration(device, dxObject, name)]),
       st.nextHandle)
    else
      (st, 0)
  }

  /** `wglDXUnregisterObjectNV`: succeeds on an object the device owns, which then is no
      longer registered (nor locked). */
  function UnregisterObject(st: InteropState, device: int, handle: int): (r: (InteropState, bool))
    requires Valid(st)
    ensures Valid(r.0) && r.0.devices == st.devices
    ensures r.1 == Owns(st, device, handle)
    ensures r.1 ==> r.0.objects == st.objects - {handle} && r.0.locked == st.locked - {handle}
    ensures !r.1 ==> r.0 == st
  {
    if Owns(st, device, handle) then
      (st.(objects := st.objects - {handle}, locked := st.locked - {handle}), true)
    else
      (st, false)
  }

  /** `wglDXCloseDeviceNV`: succeeds on an open device. Objects registered with it are left
      in the registry: closing does not unregister them. */
  function CloseDevice(st: InteropState, device: int): (r: (InteropState, bool))
    requires Valid(st)
    ensures Valid(r.0) && r.0.objects == st.objects && r.0.locked == st.locked
    ensures r.1 == (device in st.devices)
    ensures r.0.devices == st.devices - {device}
  {
    (st.(devices := st.devices - {device}), device in st.devices)
  }

  /** `wglDXLockObjectsNV` on one object: fails when the device does not own it or when it
      is already locked. */
  function LockObject(st: InteropState, device: int, handle: int): (r: (InteropState, bool))
    requires Valid(st)
    ensures Valid(r.0) && r.0.devices == st.devices && r.0.objects == st.objects
    ensures r.1 == (Owns(st, device, handle) && handle !in st.locked)
    ensures r.0.locked == if r.1 then st.locked + {handle} else st.locked
  {
    if Owns(st, device, handle) && handle !in st.locked then
      (st.(locked := st.locked + {handle}), true)
    else
      (st, false)
  }

  /** `wglDXUnlockObjectsNV` on one object: fails when the device does not own it or when it
      is not locked. */
  function UnlockObject(st: InteropState, device: int, handle: int): (r: (InteropState, bool))
    requires Valid(st)
    ensures Valid(r.0) && r.0.devices == st.devices && r.0.objects == st.objects
    ensures r.1 == (Owns(st, device, handle) && handle in st.locked)
    ensures r.0.locked == if r.1 then st.locked - {handle} else st.locked
  {
    if Owns(st, device, handle) && handle in st.locked then
      (st.(locked := st.locked - {handle}), true)
    else
      (st, false)
  }

  /** Lock and unlock of one owned object form a bracket: both succeed, the object is
      locked in between, and the unlock gives back exactly the state before the lock. */
  lemma LockUnlockBracket(st: InteropState, device: int, handle: int)
    requires Valid(st) && Owns(st, device, handle) && handle !in st.locked
    ensures LockObject(st, device, handle).1
    ensures handle in LockObject(st, device, handle).0.locked
    ensures UnlockObject(LockObject(st, device, handle).0, device, handle) == (st, true)
  {
    var locked := LockObject(st, device, handle).0;
    assert locked.locked - {handle} == st.locked;
  }

  /** A second lock without an unlock in between fails and changes nothing. */
  lemma LockIsNotReentrant(st: InteropState, device: int, handle: int)
    requires Valid(st) && LockObject(st, device, handle).1
    ensures var again := LockObject(LockObject(st, device, handle).0, device, handle);
      !again.1 && again.0 == LockObject(st, device, handle).0
  {
  }

  /** Registering the same name twice and then unregistering only the first handle and
      closing the device leaves the second handle registered. */
  lemma SecondRegistrationOutlivesClose(st: InteropState, device: int, dxObject: int, name: int)
    requires Valid(st) && device in st.devices
    ensures
      var (st1, first) := RegisterObject(st, device, dxObject, name);
      var (st2, second) := RegisterObject(st1, device, dxObject, name);
      var st4 := CloseDevice(UnregisterObject(st2, device, first).0, device).0;
      first != second && UnregisterObject(st2, device, first).1 &&
      CloseDevice(UnregisterObject(st2, device, first).0, device).1 &&
      second in st4.objects && st4.objects[second] == Registration(device, dxObject, name) &&
      first !in st4.objects && device !in st4.devices
  {
  }
}
