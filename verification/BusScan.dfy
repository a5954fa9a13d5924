/**
 The generic bus scan: a depth-first walk over the configuration space from bus 0 through the bridges, which
 marks buses in a map of 256 bytes and links every function it finds in front of the device list.
 */
module BusScan {

  const BUSES: nat := 256
  const DEVICES: nat := 32
  const FUNCTIONS: nat := 8

  datatype Addr = Addr(bus: nat, dev: nat, func: nat)

  datatype Device = Device(at: Addr, vendor: nat, device: nat, header: nat)

  /** What reading the configuration space yields; reads are taken to be stable during a scan. */
  datatype Config = Config(ident: Addr -> nat, header: Addr -> nat, secondary: Addr -> nat)

  function Ident(c: Config, a: Addr): nat { c.ident(a) % 0x1_0000_0000 }

  function HeaderByte(c: Config, a: Addr): nat { c.header(a) % 0x100 }

  function Secondary(c: Config, a: Addr): (bus: nat)
    ensures bus < BUSES
  {
    c.secondary(a) % 0x100
  }

  predicate Answers(c: Config, a: Addr) {
    Ident(c, a) != 0 && Ident(c, a) != 0xffff_ffff
  }

  function HeaderType(c: Config, a: Addr): nat { HeaderByte(c, a) % 0x80 }

  predicate MultiFunction(c: Config, a: Addr) { HeaderByte(c, a) >= 0x80 }

  predicate IsBridge(c: Config, a: Addr) {
    HeaderType(c, a) == 1 || HeaderType(c, a) == 2
  }

  function DeviceAt(c: Config, a: Addr): Device {
    Device(a, Ident(c, a) % 0x10000, Ident(c, a) / 0x10000, HeaderType(c, a))
  }

  /** What the words read mean: a function answers unless its first word is all zeroes or all ones; that word is
      vendor and device; bridges are of header type 1 or 2, with or without the multi-function bit. */
  lemma ReadsMean(c: Config, a: Addr)
    ensures Answers(c, a) <==> 0 < c.ident(a) % 0x1_0000_0000 < 0xffff_ffff
    ensures DeviceAt(c, a).at == a && DeviceAt(c, a).vendor < 0x10000 && DeviceAt(c, a).device < 0x10000
    ensures DeviceAt(c, a).vendor + 0x10000 * DeviceAt(c, a).device == c.ident(a) % 0x1_0000_0000
    ensures IsBridge(c, a) <==> c.header(a) % 0x100 in {0x01, 0x02, 0x81, 0x82}
    ensures c.header(a) % 0x100 == DeviceAt(c, a).header + (if MultiFunction(c, a) then 0x80 else 0) && DeviceAt(c, a).header < 0x80
  {
    var h, w := HeaderByte(c, a), Ident(c, a);
    assert h == 0x80 * (h / 0x80) + h % 0x80 && h / 0x80 <= 1;
    assert w == 0x10000 * (w / 0x10000) + w % 0x10000;
  }

  // ---------- Which functions and buses there are ----------

  /** A function exists when it answers, and function 0 of its device answers and is, for the others, multi-function. */
  predicate Exists(c: Config, a: Addr) {
    && Answers(c, a)
    && (a.func != 0 ==> Answers(c, Addr(a.bus, a.dev, 0)) && MultiFunction(c, Addr(a.bus, a.dev, 0)))
  }

  /** The functions of a bus that come before function `func` of device `dev`. */
  ghost function FunctionsBefore(c: Config, bus: nat, dev: nat, func: nat): set<Addr> {
    set d, f | 0 <= d < DEVICES && 0 <= f < FUNCTIONS && (d < dev || (d == dev && f < func)) && Exists(c, Addr(bus, d, f)) :: Addr(bus, d, f)
  }

  ghost function FunctionsOf(c: Config, bus: nat): set<Addr> {
    FunctionsBefore(c, bus, DEVICES, 0)
  }

  /** The functions of a bus, by the words read: 32 devices of 8 functions, the others behind a function 0 that answers
      with the multi-function bit. */
  lemma FunctionsAre(c: Config, bus: nat, a: Addr)
    ensures a in FunctionsOf(c, bus) <==>
      && a.bus == bus && a.dev < 32 && a.func < 8 && 0 < c.ident(a) % 0x1_0000_0000 < 0xffff_ffff
      && (a.func > 0 ==> var z := Addr(bus, a.dev, 0); 0 < c.ident(z) % 0x1_0000_0000 < 0xffff_ffff && c.header(z) % 0x100 >= 0x80)
  {
    ReadsMean(c, a);
    hide Answers;
    ReadsMean(c, Addr(bus, a.dev, 0));
  }

  /** A bridge on bus x leads to bus y. */
  ghost predicate Edge(c: Config, x: nat, y: nat) {
    exists a :: a in FunctionsOf(c, x) && IsBridge(c, a) && Secondary(c, a) == y
  }

  ghost predicate IsPath(c: Config, p: seq<nat>) {
    |p| > 0 && forall i :: 0 <= i < |p| - 1 ==> Edge(c, p[i], p[i + 1])
  }

  ghost predicate Connects(c: Config, p: seq<nat>, x: nat, y: nat) {
    IsPath(c, p) && p[0] == x && p[|p| - 1] == y
  }

  ghost predicate Reach(c: Config, x: nat, y: nat) {
    exists p :: Connects(c, p, x, y)
  }

  lemma ReachSelf(c: Config, x: nat)
    ensures Reach(c, x, x)
  {
    assert Connects(c, [x], x, x);
  }

  lemma ReachStep(c: Config, x: nat, y: nat, z: nat)
    requires Edge(c, x, y) && Reach(c, y, z)
    ensures Reach(c, x, z)
  {
    var p :| Connects(c, p, y, z);
    assert Connects(c, [x] + p, x, z);
  }

  lemma {:induction false} PathStaysInside(c: Config, p: seq<nat>, inside: set<nat>)
    requires IsPath(c, p) && p[0] in inside
    requires forall x, y :: x in inside && Edge(c, x, y) ==> y in inside
    ensures p[|p| - 1] in inside
  {
    if |p| > 1 {
      PathStaysInside(c, p[1..], inside);
    }
  }

  // ---------- What a part of the scan does ----------

  datatype Snap = Snap(marks: set<nat>, devices: seq<Device>)

  /** The devices linked since `before`; new devices come to the front of the list. */
  function New(before: Snap, after: Snap): seq<Device> {
    if |before.devices| <= |after.devices| then after.devices[..|after.devices| - |before.devices|] else []
  }

  ghost function At(devices: seq<Device>): set<Addr> {
    set i | 0 <= i < |devices| :: devices[i].at
  }

  ghost predicate EachOnce(devices: seq<Device>) {
    forall i, j :: 0 <= i < j < |devices| ==> devices[i].at != devices[j].at
  }

  ghost predicate AsRead(c: Config, devices: seq<Device>) {
    forall i :: 0 <= i < |devices| ==> devices[i] == DeviceAt(c, devices[i].at)
  }

  /** The functions `fs`, on buses marked before, have been visited together with everything behind them. */
  ghost predicate Visited(c: Config, fs: set<Addr>, before: Snap, after: Snap) {
    && Extends(before, after)
    && Closed(c, fs, before, after)
    && FromHere(c, fs, before, after)
    && Linked(c, fs, before, after)
  }

  ghost predicate Extends(before: Snap, after: Snap) {
    && before.marks <= after.marks
    && after.devices == New(before, after) + before.devices
  }

  ghost predicate Closed(c: Config, fs: set<Addr>, before: Snap, after: Snap) {
    && (forall a :: a in fs && IsBridge(c, a) ==> Secondary(c, a) in after.marks)
    && (forall x, y :: x in after.marks && x !in before.marks && Edge(c, x, y) ==> y in after.marks)
  }

  ghost predicate FromHere(c: Config, fs: set<Addr>, before: Snap, after: Snap) {
    forall x :: x in after.marks && x !in before.marks ==> Behind(c, fs, x)
  }

  ghost predicate Behind(c: Config, fs: set<Addr>, x: nat) {
    exists a :: a in fs && IsBridge(c, a) && Reach(c, Secondary(c, a), x)
  }

  ghost predicate Linked(c: Config, fs: set<Addr>, before: Snap, after: Snap) {
    var news := New(before, after);
    && EachOnce(news) && AsRead(c, news)
    && (forall a :: a in fs ==> a.bus in before.marks)
    && (forall a :: a in At(news) <==> a in fs || (a.bus in after.marks && a.bus !in before.marks && a in FunctionsOf(c, a.bus)))
  }

  /** A bus has been scanned: skipped when it was marked, and otherwise marked and all its functions visited. */
  ghost predicate BusVisited(c: Config, bus: nat, before: Snap, after: Snap) {
    if bus in before.marks then after == before
    else Visited(c, FunctionsOf(c, bus), Snap(before.marks + {bus}, before.devices), after)
  }

  lemma AtPlus(d: seq<Device>, e: seq<Device>)
    ensures At(d + e) == At(d) + At(e)
  {
    forall a | a in At(d) + At(e) ensures a in At(d + e) {
      if a in At(d) {
        var i :| 0 <= i < |d| && d[i].at == a;
        assert (d + e)[i].at == a;
      } else {
        var i :| 0 <= i < |e| && e[i].at == a;
        assert (d + e)[|d| + i].at == a;
      }
    }
  }

  lemma EachOncePlus(d: seq<Device>, e: seq<Device>)
    requires EachOnce(d) && EachOnce(e) && At(d) !! At(e)
    ensures EachOnce(d + e)
  {
    var s := d + e;
    forall i, j | 0 <= i < j < |s| ensures s[i].at != s[j].at {
      if i < |d| <= j {
        assert d[i].at in At(d) && e[j - |d|].at in At(e);
      }
    }
  }

  lemma VisitNothing(c: Config, s: Snap)
    ensures Visited(c, {}, s, s)
  {
  }

  lemma NewPlus(s0: Snap, s1: Snap, s2: Snap)
    requires Extends(s0, s1) && Extends(s1, s2)
    ensures Extends(s0, s2) && New(s0, s2) == New(s1, s2) + New(s0, s1)
  {
    assert s2.devices == (New(s1, s2) + New(s0, s1)) + s0.devices;
  }

  /** Two visits in a row are one visit. */
  lemma VisitBoth(c: Config, fs: set<Addr>, gs: set<Addr>, s0: Snap, s1: Snap, s2: Snap)
    requires Visited(c, fs, s0, s1) && Visited(c, gs, s1, s2)
    requires fs !! gs && forall a :: a in gs ==> a.bus in s0.marks
    ensures Visited(c, fs + gs, s0, s2)
  {
    NewPlus(s0, s1, s2);
    BehindBoth(c, fs, gs, s0, s1, s2);
    LinkedBoth(c, fs, gs, s0, s1, s2);
  }

  lemma BehindBoth(c: Config, fs: set<Addr>, gs: set<Addr>, s0: Snap, s1: Snap, s2: Snap)
    requires FromHere(c, fs, s0, s1) && FromHere(c, gs, s1, s2)
    ensures FromHere(c, fs + gs, s0, s2)
  {
    forall x | x in s2.marks && x !in s0.marks ensures Behind(c, fs + gs, x) {
      if x in s1.marks {
        assert Behind(c, fs, x);
      } else {
        assert Behind(c, gs, x);
      }
    }
  }

  lemma LinkedBoth(c: Config, fs: set<Addr>, gs: set<Addr>, s0: Snap, s1: Snap, s2: Snap)
    requires Extends(s0, s1) && Extends(s1, s2) && Linked(c, fs, s0, s1) && Linked(c, gs, s1, s2)
    requires fs !! gs && forall a :: a in gs ==> a.bus in s0.marks
    ensures Linked(c, fs + gs, s0, s2)
  {
    NewPlus(s0, s1, s2);
    var d, e := New(s1, s2), New(s0, s1);
    AtPlus(d, e);
    EachOncePlus(d, e);
  }

  lemma LinkOne(c: Config, a: Addr, s: Snap)
    requires a.bus in s.marks
    ensures var s' := Snap(s.marks, [DeviceAt(c, a)] + s.devices);
      Extends(s, s') && FromHere(c, {a}, s, s') && Linked(c, {a}, s, s') && New(s, s') == [DeviceAt(c, a)]
  {
    var s' := Snap(s.marks, [DeviceAt(c, a)] + s.devices);
    assert New(s, s') == [DeviceAt(c, a)];
    assert New(s, s')[0].at == a;
  }

  /** Everything behind a bridge that leads to an unmarked bus. */
  lemma VisitBehind(c: Config, a: Addr, s: Snap, after: Snap)
    requires IsBridge(c, a) && a.bus in s.marks && Secondary(c, a) !in s.marks
    requires BusVisited(c, Secondary(c, a), s, after)
    ensures Extends(s, after) && Closed(c, {a}, s, after) && FromHere(c, {a}, s, after)
    ensures EachOnce(New(s, after)) && AsRead(c, New(s, after))
    ensures forall x :: x in At(New(s, after)) <==> x.bus in after.marks && x.bus !in s.marks && x in FunctionsOf(c, x.bus)
  {
    var y := Secondary(c, a);
    var s' := Snap(s.marks + {y}, s.devices);
    assert New(s, after) == New(s', after);
    forall x | x in after.marks && x !in s.marks ensures Behind(c, {a}, x) {
      if x == y {
        ReachSelf(c, y);
      } else {
        assert Behind(c, FunctionsOf(c, y), x);
        var b :| b in FunctionsOf(c, y) && IsBridge(c, b) && Reach(c, Secondary(c, b), x);
        ReachStep(c, y, Secondary(c, b), x);
      }
      assert Reach(c, Secondary(c, a), x);
    }
    forall x | x in At(New(s, after)) ensures x.bus in after.marks && x.bus !in s.marks && x in FunctionsOf(c, x.bus) {
      if x in FunctionsOf(c, y) { assert x.bus == y; }
    }
  }

  /** Linking a function and, for a bridge, scanning the bus behind it is a visit to that function. */
  lemma VisitOne(c: Config, a: Addr, s: Snap, after: Snap)
    requires a.bus in s.marks
    requires var s' := Snap(s.marks, [DeviceAt(c, a)] + s.devices);
      if IsBridge(c, a) then BusVisited(c, Secondary(c, a), s', after) else after == s'
    ensures Visited(c, {a}, s, after)
  {
    hide BusVisited, FunctionsBefore;
    var s' := Snap(s.marks, [DeviceAt(c, a)] + s.devices);
    LinkOne(c, a, s);
    if IsBridge(c, a) {
      if Secondary(c, a) in s.marks {
        Skipped(c, Secondary(c, a), s', after);
      } else {
        VisitBehind(c, a, s', after);
        NewPlus(s, s', after);
        var d, e := New(s', after), New(s, s');
        AtPlus(d, e);
        assert At(e) == {a};
        EachOncePlus(d, e);
      }
    }
  }

  lemma Skipped(c: Config, bus: nat, before: Snap, after: Snap)
    requires BusVisited(c, bus, before, after) && bus in before.marks
    ensures after == before
  {
  }

  // ---------- The scan ----------

  class Scan {
    const config: Config
    const busmap: array<bool>
    var devices: seq<Device>

    constructor (config: Config)
      ensures this.config == config && busmap.Length == BUSES && fresh(busmap) && State() == Snap({}, [])
    {
      this.config := config;
      busmap := new bool[BUSES](_ => false);
      devices := [];
    }

    ghost function Marks(): set<nat>
      reads busmap
    {
      set b: nat | b < busmap.Length && busmap[b]
    }

    ghost function Unmarked(): set<nat>
      reads busmap
    {
      set b: nat | b < busmap.Length && !busmap[b]
    }

    ghost function State(): Snap
      reads this, busmap
    {
      Snap(Marks(), devices)
    }

    /** pci_generic_scan_bus. */
    method ScanBus(bus: nat)
      requires busmap.Length == BUSES && bus < BUSES
      modifies `devices, busmap
      ensures BusVisited(config, bus, old(State()), State())
      decreases Unmarked(), 0
    {
      hide Visited, FunctionsBefore;
      if busmap[bus] { return; }
      busmap[bus] := true;
      ghost var s0 := State();
      assert s0.marks == old(Marks()) + {bus};
      assert bus in old(Unmarked()) && Unmarked() < old(Unmarked());
      VisitNothing(config, s0);
      NoneBefore(config, bus);
      var dev := 0;
      while dev < DEVICES
        invariant dev <= DEVICES
        invariant Visited(config, FunctionsBefore(config, bus, dev, 0), s0, State())
        invariant bus in Marks() && Unmarked() < old(Unmarked())
      {
        ScanDevice(bus, dev, s0);
        dev := dev + 1;
      }
    }

    /** The loop over a device's functions. */
    method ScanDevice(bus: nat, dev: nat, ghost s0: Snap)
      requires busmap.Length == BUSES && bus < BUSES && dev < DEVICES && bus in s0.marks && bus in Marks()
      requires Visited(config, FunctionsBefore(config, bus, dev, 0), s0, State())
      modifies `devices, busmap
      ensures Visited(config, FunctionsBefore(config, bus, dev + 1, 0), s0, State())
      ensures bus in Marks() && Unmarked() <= old(Unmarked())
      decreases Unmarked(), 2
    {
      hide Visited, FunctionsBefore;
      var multi := false;
      var func := 0;
      while func == 0 || (multi && func < FUNCTIONS)
        invariant func <= FUNCTIONS
        invariant func == 0 ==> !multi
        invariant func > 0 ==> multi == (Answers(config, Addr(bus, dev, 0)) && MultiFunction(config, Addr(bus, dev, 0)))
        invariant Visited(config, FunctionsBefore(config, bus, dev, func), s0, State())
        invariant bus in Marks() && Unmarked() <= old(Unmarked())
        decreases FUNCTIONS - func
      {
        var a := Addr(bus, dev, func);
        if Answers(config, a) {
          if func == 0 { multi := MultiFunction(config, a); }
          ghost var s := State();
          ScanFunction(a);
          NextExists(config, a);
          BothVisited(config, a, s0, s, State());
        } else {
          NextMissing(config, a);
        }
        func := func + 1;
      }
      NoMore(config, bus, dev, func);
    }

    /** Link a function that answers; behind a bridge, scan its secondary bus. */
    method ScanFunction(a: Addr)
      requires busmap.Length == BUSES && a.bus in Marks()
      modifies `devices, busmap
      ensures Visited(config, {a}, old(State()), State())
      ensures Marks() >= old(Marks()) && Unmarked() <= old(Unmarked())
      decreases Unmarked(), 1
    {
      hide Visited, FunctionsBefore;
      ghost var s := State();
      devices := [DeviceAt(config, a)] + devices;
      assert State() == Snap(s.marks, [DeviceAt(config, a)] + s.devices);
      if IsBridge(config, a) {
        ScanBus(Secondary(config, a));
      }
      VisitOne(config, a, s, State());
      VisitedExtends(config, {a}, s, State());
      assert Marks() >= s.marks;
      forall b | b in Unmarked() ensures b in old(Unmarked()) { assert b !in Marks(); }
    }
  }

  lemma VisitedExtends(c: Config, fs: set<Addr>, before: Snap, after: Snap)
    requires Visited(c, fs, before, after)
    ensures before.marks <= after.marks && forall a :: a in fs ==> a.bus in before.marks
  {
  }

  lemma NoneBefore(c: Config, bus: nat)
    ensures FunctionsBefore(c, bus, 0, 0) == {}
  {
  }

  lemma NextExists(c: Config, a: Addr)
    requires a.dev < DEVICES && a.func < FUNCTIONS && Exists(c, a)
    ensures FunctionsBefore(c, a.bus, a.dev, a.func + 1) == FunctionsBefore(c, a.bus, a.dev, a.func) + {a}
    ensures a !in FunctionsBefore(c, a.bus, a.dev, a.func)
  {
  }

  lemma NextMissing(c: Config, a: Addr)
    requires !Exists(c, a)
    ensures FunctionsBefore(c, a.bus, a.dev, a.func + 1) == FunctionsBefore(c, a.bus, a.dev, a.func)
  {
  }

  /** Without a multi-function device the functions behind function 0 do not exist. */
  lemma NoMore(c: Config, bus: nat, dev: nat, func: nat)
    requires 0 < func <= FUNCTIONS
    requires func == FUNCTIONS || !(Answers(c, Addr(bus, dev, 0)) && MultiFunction(c, Addr(bus, dev, 0)))
    ensures FunctionsBefore(c, bus, dev, func) == FunctionsBefore(c, bus, dev + 1, 0)
  {
  }

  lemma BothVisited(c: Config, a: Addr, s0: Snap, s1: Snap, s2: Snap)
    requires a.bus in s0.marks && a !in FunctionsBefore(c, a.bus, a.dev, a.func)
    requires Visited(c, FunctionsBefore(c, a.bus, a.dev, a.func), s0, s1) && Visited(c, {a}, s1, s2)
    ensures Visited(c, FunctionsBefore(c, a.bus, a.dev, a.func) + {a}, s0, s2)
  {
    hide Visited, FunctionsBefore;
    VisitBoth(c, FunctionsBefore(c, a.bus, a.dev, a.func), {a}, s0, s1, s2);
  }

  /** What the scan of bus 0 has marked and linked, when it starts with nothing marked. */
  lemma FullScan(c: Config, after: Snap)
    requires BusVisited(c, 0, Snap({}, []), after)
    ensures forall x :: x in after.marks <==> Reach(c, 0, x)
    ensures EachOnce(after.devices) && AsRead(c, after.devices)
    ensures forall a :: a in At(after.devices) <==> Reach(c, 0, a.bus) && a in FunctionsOf(c, a.bus)
  {
    hide FunctionsBefore;
    var s0 := Snap({0}, []);
    assert Snap({}, []).marks + {0} == s0.marks;
    assert New(s0, after) == after.devices;
    forall x | x in after.marks ensures Reach(c, 0, x) {
      if x == 0 {
        ReachSelf(c, 0);
      } else {
        assert Behind(c, FunctionsOf(c, 0), x);
        var b :| b in FunctionsOf(c, 0) && IsBridge(c, b) && Reach(c, Secondary(c, b), x);
        ReachStep(c, 0, Secondary(c, b), x);
      }
    }
    forall x | Reach(c, 0, x) ensures x in after.marks {
      var p :| Connects(c, p, 0, x);
      PathStaysInside(c, p, after.marks);
    }
    forall a | a in FunctionsOf(c, 0) ensures a.bus == 0 { OnBus(c, 0, a); }
  }

  lemma OnBus(c: Config, bus: nat, a: Addr)
    requires a in FunctionsOf(c, bus)
    ensures a.bus == bus
  {
  }

  /** pci_generic_scan. */
  method GenericScan(config: Config) returns (devices: seq<Device>, busmap: seq<bool>)
    ensures |busmap| == BUSES && forall x :: 0 <= x < BUSES ==> (busmap[x] <==> Reach(config, 0, x))
    ensures EachOnce(devices) && AsRead(config, devices)
    ensures forall a :: a in At(devices) <==> Reach(config, 0, a.bus) && a in FunctionsOf(config, a.bus)
  {
    hide BusVisited, Reach, FunctionsBefore;
    var scan := new Scan(config);
    scan.ScanBus(0);
    FullScan(config, scan.State());
    devices, busmap := scan.devices, scan.busmap[..];
    assert forall x :: 0 <= x < BUSES ==> (busmap[x] <==> x in scan.Marks());
  }
}
