/** The bookkeeping of the rotating globe: the graticule and the six nodes it
    is built from, the ring of links, the per-frame update of the view angles
    and link phases, the depth culling of lines and nodes, and resizing.
    The sphere-to-screen trigonometry and the canvas drawing are not part of
    this model: a point is kept as its latitude and longitude, and culling
    is stated over the depth the rotation gives each point. */
module OracleGlobe {

  /** A point of the graticule, in whole degrees. */
  datatype LatLon = LatLon(lat: int, lon: int)

  /** The meridian loop: longitudes -150 to 180 in steps of 30, each a
      line of latitudes -80 to 80 in steps of 5. */
  method Meridians() returns (ms: seq<seq<LatLon>>)
    ensures |ms| == 12
    ensures forall i :: 0 <= i < 12 ==> |ms[i]| == 33
    ensures forall i, j :: 0 <= i < 12 && 0 <= j < 33 ==> ms[i][j] == LatLon(-80 + 5 * j, -150 + 30 * i)
  {
    ms := [];
    var lon := -150;
    while lon <= 180
      invariant lon == -150 + 30 * |ms| && |ms| <= 12
      invariant forall i :: 0 <= i < |ms| ==> |ms[i]| == 33
      invariant forall i, j :: 0 <= i < |ms| && 0 <= j < 33 ==> ms[i][j] == LatLon(-80 + 5 * j, -150 + 30 * i)
    {
      var line: seq<LatLon> := [];
      var lat := -80;
      while lat <= 80
        invariant lat == -80 + 5 * |line| && |line| <= 33
        invariant forall j :: 0 <= j < |line| ==> line[j] == LatLon(-80 + 5 * j, lon)
      {
        line := line + [LatLon(lat, lon)];
        lat := lat + 5;
      }
      ms := ms + [line];
      lon := lon + 30;
    }
  }

  /** The parallel loop: latitudes -60 to 60 in steps of 20, each a line of
      longitudes -180 to 180 in steps of 5. */
  method Parallels() returns (ps: seq<seq<LatLon>>)
    ensures |ps| == 7
    ensures forall i :: 0 <= i < 7 ==> |ps[i]| == 73
    ensures forall i, j :: 0 <= i < 7 && 0 <= j < 73 ==> ps[i][j] == LatLon(-60 + 20 * i, -180 + 5 * j)
  {
    ps := [];
    var lat := -60;
    while lat <= 60
      invariant lat == -60 + 20 * |ps| && |ps| <= 7
      invariant forall i :: 0 <= i < |ps| ==> |ps[i]| == 73
      invariant forall i, j :: 0 <= i < |ps| && 0 <= j < 73 ==> ps[i][j] == LatLon(-60 + 20 * i, -180 + 5 * j)
    {
      var line: seq<LatLon> := [];
      var lon := -180;
      while lon <= 180
        invariant lon == -180 + 5 * |line| && |line| <= 73
        invariant forall j :: 0 <= j < |line| ==> line[j] == LatLon(lat, -180 + 5 * j)
      {
        line := line + [LatLon(lat, lon)];
        lon := lon + 5;
      }
      ps := ps + [line];
      lat := lat + 20;
    }
  }

  /** `ORB_NODES`: San Francisco, London, Singapore, Shenzhen, Tokyo and New
      York, as (latitude, longitude). */
  const OrbNodes: seq<(real, real)> := [
    (37.77, -122.41), (51.5, -0.12), (1.29, 103.85),
    (22.54, 114.06), (35.68, 139.69), (40.71, -74.0)]

  /** `links`: node index pairs. */
  const LinkEnds: seq<(int, int)> := [(0, 1), (1, 2), (2, 3), (3, 4), (4, 5), (5, 0)]

  /** The links form the ring i → i + 1 modulo 6, and every node is the
      start of one link and the end of one link. */
  lemma LinksFormRing()
    ensures |OrbNodes| == 6 && |LinkEnds| == 6
    ensures forall i :: 0 <= i < 6 ==> LinkEnds[i] == (i, (i + 1) % 6)
    ensures multiset(seq(6, i requires 0 <= i < 6 => LinkEnds[i].0)) == multiset{0, 1, 2, 3, 4, 5}
    ensures multiset(seq(6, i requires 0 <= i < 6 => LinkEnds[i].1)) == multiset{0, 1, 2, 3, 4, 5}
  {
    assert seq(6, i requires 0 <= i < 6 => LinkEnds[i].0) == [0, 1, 2, 3, 4, 5];
    assert seq(6, i requires 0 <= i < 6 => LinkEnds[i].1) == [1, 2, 3, 4, 5, 0];
  }

  /** The frame step in seconds, capped at 0.05. */
  function Dt(now: real, last: real): (r: real)
    ensures r <= 0.05 && r <= (now - last) / 1000.0
    ensures r == 0.05 || r == (now - last) / 1000.0
    ensures now >= last ==> r >= 0.0
  {
    if 0.05 <= (now - last) / 1000.0 then 0.05 else (now - last) / 1000.0
  }

  /** A link's phase after a frame: it moves by 0.6·dt and wraps only once
      it is strictly above 1. */
  function Advance(t: real, dt: real): real {
    var u := t + dt * 0.6;
    if u > 1.0 then u - 1.0 else u
  }

  /** A phase in [0, 1] stays there for any frame step the cap allows. */
  lemma AdvanceStaysInUnit(t: real, dt: real)
    requires 0.0 <= t <= 1.0 && 0.0 <= dt <= 0.05
    ensures 0.0 <= Advance(t, dt) <= 1.0
  {
  }

  /** The phase can land exactly on 1: the wrap needs strictly more. */
  lemma AdvanceReachesOne()
    ensures Advance(0.97, 0.05) == 1.0
  {
  }

  function AdvanceAll(ts: seq<real>, dt: real): (r: seq<real>)
    ensures |r| == |ts|
    ensures forall i :: 0 <= i < |ts| ==> r[i] == Advance(ts[i], dt)
  {
    seq(|ts|, i requires 0 <= i < |ts| => Advance(ts[i], dt))
  }

  predicate InUnit(ts: seq<real>) {
    forall i :: 0 <= i < |ts| ==> 0.0 <= ts[i] <= 1.0
  }

  lemma AdvanceAllStaysInUnit(ts: seq<real>, dt: real)
    requires InUnit(ts) && 0.0 <= dt <= 0.05
    ensures InUnit(AdvanceAll(ts, dt))
  {
    forall i | 0 <= i < |ts|
      ensures 0.0 <= AdvanceAll(ts, dt)[i] <= 1.0
    {
      AdvanceStaysInUnit(ts[i], dt);
    }
  }

  /** `rotX += (my - rotX) * 0.08`. */
  function EasePitch(rotX: real, my: real): real {
    rotX + (my - rotX) * 0.08
  }

  /** The pitch closes 8% of its distance to the pointer each frame. */
  lemma EasePitchContracts(rotX: real, my: real)
    ensures EasePitch(rotX, my) - my == 0.92 * (rotX - my)
  {
  }

  /** Even with the pointer at rest the pitch drifts from its start -0.1
      toward 0. */
  lemma PitchDriftsAtRest()
    ensures EasePitch(-0.1, 0.0) == -0.092
  {
  }

  /** `rotY += speed * dt` and then `rotY += mx * 0.01`. */
  function NextYaw(rotY: real, speed: real, dt: real, mx: real): real {
    rotY + speed * dt + mx * 0.01
  }

  /** With no spin and the pointer centred the yaw stays put. */
  lemma YawFixedAtRest(rotY: real, dt: real)
    ensures NextYaw(rotY, 0.0, dt, 0.0) == rotY
  {
  }

  /** `(fraction - 0.5) * 0.6`: the pointer offset across the canvas. */
  function PointerOffset(fraction: real): real {
    (fraction - 0.5) * 0.6
  }

  /** Over the canvas the offset lies between -0.3 and 0.3. */
  lemma PointerOffsetBounds(fraction: real)
    requires 0.0 <= fraction <= 1.0
    ensures -0.3 <= PointerOffset(fraction) <= 0.3
  {
  }

  /** `lineStrip` skips a point whose rotated depth is below -0.2. */
  predicate StripVisible(z: real) {
    !(z < -0.2)
  }

  /** `drawNode` skips a node whose rotated depth is below -0.15. */
  predicate NodeVisible(z: real) {
    !(z < -0.15)
  }

  /** Node culling is the stricter one: a drawn node would survive the line
      culling, but not the other way round. */
  lemma NodeCullingStricter()
    ensures forall z: real :: NodeVisible(z) ==> StripVisible(z)
    ensures StripVisible(-0.2) && !NodeVisible(-0.2)
  {
  }

  /** The indices, in order, of the points among the first `n` that survive
      the line culling. */
  function Survivors(zs: seq<real>, n: nat): (r: seq<nat>)
    requires n <= |zs|
    ensures forall k :: 0 <= k < |r| ==> r[k] < n && StripVisible(zs[r[k]])
    ensures forall k, l :: 0 <= k < l < |r| ==> r[k] < r[l]
    ensures forall i :: 0 <= i < n && StripVisible(zs[i]) ==> i in r
  {
    if n == 0 then []
    else if StripVisible(zs[n - 1]) then Survivors(zs, n - 1) + [n - 1]
    else Survivors(zs, n - 1)
  }

  datatype PathOp = MoveTo(point: nat) | LineTo(point: nat)

  /** `ops` starts the path at the first of `s` and joins each later one. */
  predicate Strip(ops: seq<PathOp>, s: seq<nat>) {
    |ops| == |s| && forall k :: 0 <= k < |ops| ==> ops[k] == if k == 0 then MoveTo(s[k]) else LineTo(s[k])
  }

  lemma StripExtend(ops: seq<PathOp>, s: seq<nat>, i: nat)
    requires Strip(ops, s)
    ensures Strip(ops + [if ops == [] then MoveTo(i) else LineTo(i)], s + [i])
  {
  }

  /** The path `lineStrip` builds, given each point's rotated depth: the
      first survivor starts it and every later survivor is joined to the
      one before, so a culled run is bridged by a straight segment rather
      than breaking the line. */
  method LineStrip(zs: seq<real>) returns (ops: seq<PathOp>)
    ensures Strip(ops, Survivors(zs, |zs|))
  {
    ops := [];
    var first := true;
    for i := 0 to |zs|
      invariant Strip(ops, Survivors(zs, i))
      invariant first <==> ops == []
    {
      if zs[i] < -0.2 {
        continue;
      }
      StripExtend(ops, Survivors(zs, i), i);
      if first {
        ops := ops + [MoveTo(i)];
        first := false;
      } else {
        ops := ops + [LineTo(i)];
      }
    }
  }

  /** `Math.min(2, window.devicePixelRatio || 1)`. */
  function PixelRatio(deviceRatio: real): (r: real)
    ensures r <= 2.0
    ensures deviceRatio == 0.0 ==> r == 1.0
    ensures deviceRatio != 0.0 && deviceRatio <= 2.0 ==> r == deviceRatio
    ensures deviceRatio > 2.0 ==> r == 2.0
  {
    var d := if deviceRatio == 0.0 then 1.0 else deviceRatio;
    if 2.0 <= d then 2.0 else d
  }

  function Min(a: real, b: real): real {
    if a <= b then a else b
  }

  /** `Math.min(w, h) * 0.38`. */
  function Radius(w: real, h: real): (r: real)
    ensures r <= w * 0.38 && r <= h * 0.38
    ensures r == w * 0.38 || r == h * 0.38
  {
    Min(w, h) * 0.38
  }

  /** The state the globe's effect keeps between frames. */
  class Globe {
    const h: real
    const speed: real
    const dpr: real
    const cx: real
    const cy: real
    const meridians: seq<seq<LatLon>>
    const parallels: seq<seq<LatLon>>
    const links: seq<(int, int)>
    /** The `t` of each link, updated in place. */
    const phases: array<real>

    var w: real
    var R: real
    var backingWidth: int
    var rotY: real
    var rotX: real
    var last: real
    var mx: real
    var my: real
    var running: bool

    predicate Valid()
      reads this
    {
      |links| == 6 && phases.Length == |links|
    }

    /** Set-up: `width` is the wrapper's width, `ratio` the device pixel
        ratio, `now` the clock and `random` the six initial link phases. */
    constructor (width: real, height: real, speed: real, ratio: real, now: real, random: seq<real>)
      requires |random| == 6
      ensures Valid() && fresh(phases) && phases[..] == random
      ensures h == height && this.speed == speed && dpr == PixelRatio(ratio)
      ensures w == width && R == Radius(width, height) && backingWidth == (width * dpr).Floor
      ensures cx == width * 0.35 && cy == height * 0.52
      ensures |meridians| == 12 && |parallels| == 7 && links == LinkEnds
      ensures forall i :: 0 <= i < 12 ==> |meridians[i]| == 33
      ensures forall i, j :: 0 <= i < 12 && 0 <= j < 33 ==> meridians[i][j] == LatLon(-80 + 5 * j, -150 + 30 * i)
      ensures forall i :: 0 <= i < 7 ==> |parallels[i]| == 73
      ensures forall i, j :: 0 <= i < 7 && 0 <= j < 73 ==> parallels[i][j] == LatLon(-60 + 20 * i, -180 + 5 * j)
      ensures rotY == 0.0 && rotX == -0.1 && last == now && mx == 0.0 && my == 0.0 && running
    {
      h := height;
      this.speed := speed;
      dpr := PixelRatio(ratio);
      w := width;
      backingWidth := (width * PixelRatio(ratio)).Floor;
      R := Radius(width, height);
      cx := width * 0.35;
      cy := height * 0.52;
      var ms := Meridians();
      var ps := Parallels();
      meridians := ms;
      parallels := ps;
      links := LinkEnds;
      var a := new real[6](i requires 0 <= i < 6 reads {} => random[i]);
      phases := a;
      rotY := 0.0;
      rotX := -0.1;
      last := now;
      mx := 0.0;
      my := 0.0;
      running := true;
    }

    /** `frame(now)`: nothing changes while the globe is off screen;
        otherwise the clock, the view angles and every link phase move on. */
    method Frame(now: real)
      requires Valid()
      modifies this, phases
      ensures Valid()
      ensures !old(running) ==> unchanged(this) && phases[..] == old(phases[..])
      ensures old(running) ==>
        var dt := Dt(now, old(last));
        && last == now
        && rotY == NextYaw(old(rotY), speed, dt, old(mx))
        && rotX == EasePitch(old(rotX), old(my))
        && phases[..] == AdvanceAll(old(phases[..]), dt)
        && w == old(w) && R == old(R) && backingWidth == old(backingWidth)
        && mx == old(mx) && my == old(my) && running
    {
      if !running {
        return;
      }
      var dt := Dt(now, last);
      last := now;
      rotY := rotY + speed * dt;
      rotX := rotX + (my - rotX) * 0.08;
      rotY := rotY + mx * 0.01;
      for i := 0 to phases.Length
        modifies phases
        invariant forall k :: 0 <= k < i ==> phases[k] == Advance(old(phases[k]), dt)
        invariant forall k :: i <= k < phases.Length ==> phases[k] == old(phases[k])
      {
        var t := phases[i] + dt * 0.6;
        if t > 1.0 {
          t := t - 1.0;
        }
        phases[i] := t;
      }
    }

    /** `onResize`: the width, the backing store and the radius follow the
        wrapper; the height, the centre and the geometry stay as set up. */
    method OnResize(width: real)
      modifies this
      ensures w == width && backingWidth == (width * dpr).Floor && R == Radius(width, h)
      ensures rotY == old(rotY) && rotX == old(rotX) && last == old(last)
      ensures mx == old(mx) && my == old(my) && running == old(running)
    {
      w := width;
      backingWidth := (w * dpr).Floor;
      R := Min(w, h) * 0.38;
    }

    /** `onMove`, given the pointer's position as a fraction of the canvas. */
    method OnMove(fx: real, fy: real)
      modifies this
      ensures mx == PointerOffset(fx) && my == PointerOffset(fy)
      ensures w == old(w) && R == old(R) && backingWidth == old(backingWidth)
      ensures rotY == old(rotY) && rotX == old(rotX) && last == old(last) && running == old(running)
    {
      mx := (fx - 0.5) * 0.6;
      my := (fy - 0.5) * 0.6;
    }

    /** The intersection observer: frames run only while the globe is visible. */
    method SetVisible(visible: bool)
      modifies this
      ensures running == visible
      ensures w == old(w) && R == old(R) && backingWidth == old(backingWidth)
      ensures rotY == old(rotY) && rotX == old(rotX) && last == old(last)
      ensures mx == old(mx) && my == old(my)
    {
      running := visible;
    }
  }

  /** Frames keep every link phase in [0, 1] as long as the clock does not
      run backwards. */
  lemma FramePhasesInUnit(ts: seq<real>, now: real, last: real)
    requires InUnit(ts) && now >= last
    ensures InUnit(AdvanceAll(ts, Dt(now, last)))
  {
    AdvanceAllStaysInUnit(ts, Dt(now, last));
  }
}
