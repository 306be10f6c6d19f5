/** The tiling manager of the desktop shell: windows that are placed in place whenever the list or the
    layout changes. */
module Tiling {
  import opened Arithmetic
  import opened Sublists

  const SCREEN_W: int := 1920
  const SCREEN_H: int := 1080

  datatype Rect = Rect(x: int, y: int, w: int, h: int)

  datatype View = View(id: string, title: string, rect: Rect, tiled: bool)

  class Window {
    const id: string
    const title: string
    var x: int
    var y: int
    var w: int
    var h: int
    var tiled: bool

    constructor (id: string, title: string, x: int, y: int, w: int, h: int)
      ensures Shown() == View(id, title, Rect(x, y, w, h), false)
    {
      this.id, this.title, this.x, this.y, this.w, this.h, tiled := id, title, x, y, w, h, false;
    }

    function Shown(): View
      reads this
    {
      View(id, title, Rect(x, y, w, h), tiled)
    }

    method MoveTo(x: int, y: int, w: int, h: int)
      modifies this
      ensures Shown() == old(Shown()).(rect := Rect(x, y, w, h), tiled := true)
    {
      this.x, this.y, this.w, this.h, tiled := x, y, w, h, true;
    }
  }

  function Views(windows: seq<Window>): (vs: seq<View>)
    reads windows
    ensures |vs| == |windows|
    ensures forall i {:trigger vs[i]} {:trigger windows[i]} | 0 <= i < |vs| :: vs[i] == windows[i].Shown()
  {
    seq(|windows|, i requires 0 <= i < |windows| reads windows => windows[i].Shown())
  }

  // ---------- What tiling computes ----------

  /** The height of each of `k` stacked windows. */
  function StackHeight(k: nat): int {
    if k == 0 then SCREEN_H else SCREEN_H / k
  }

  /** The place of the `i`th of `n` windows: the first is the master, the others form the stack. */
  function Place(i: nat, n: nat): Rect
    requires i < n
  {
    if i == 0 then Rect(0, 0, SCREEN_W / 2, SCREEN_H)
    else Rect(SCREEN_W / 2, (i - 1) * StackHeight(n - 1), SCREEN_W / 2, StackHeight(n - 1))
  }

  /** The first `m` windows placed, the others as they were. */
  function Placed(vs: seq<View>, m: nat): (r: seq<View>)
    ensures |r| == |vs|
  {
    seq(|vs|, i requires 0 <= i < |vs| => if i < m then vs[i].(rect := Place(i, |vs|), tiled := true) else vs[i])
  }

  datatype Desk = Desk(layout: string, windows: seq<View>)

  function Retiled(d: Desk): Desk {
    if d.layout == "master-stack" then d.(windows := Placed(d.windows, |d.windows|)) else d
  }

  function Without(vs: seq<View>, id: string): seq<View> {
    if vs == [] then [] else Without(vs[..|vs| - 1], id) + if vs[|vs| - 1].id != id then [vs[|vs| - 1]] else []
  }

  function Others(windows: seq<Window>, id: string): seq<Window> {
    if windows == [] then []
    else Others(windows[..|windows| - 1], id) + if windows[|windows| - 1].id != id then [windows[|windows| - 1]] else []
  }

  predicate Different(windows: seq<Window>) {
    forall i, j | 0 <= i < j < |windows| :: windows[i] != windows[j]
  }

  lemma {:induction false} OthersDiffer(windows: seq<Window>, id: string)
    ensures forall window :: window in Others(windows, id) <==> window in windows && window.id != id
    ensures Different(windows) ==> Different(Others(windows, id))
  {
    if windows != [] {
      var rest, last := windows[..|windows| - 1], windows[|windows| - 1];
      OthersDiffer(rest, id);
      assert windows == rest + [last];
    }
  }

  lemma {:induction false} OthersViewed(windows: seq<Window>, id: string)
    ensures Views(Others(windows, id)) == Without(Views(windows), id)
  {
    if windows != [] {
      var rest, last := windows[..|windows| - 1], windows[|windows| - 1];
      OthersViewed(rest, id);
      assert Views(windows)[..|windows| - 1] == Views(rest);
      if last.id != id {
        assert Views(Others(rest, id) + [last]) == Views(Others(rest, id)) + [last.Shown()];
      }
    }
  }

  datatype Op = Add(id: string, title: string, rect: Rect) | Remove(id: string) | SetLayout(layout: string)

  function AfterOp(d: Desk, op: Op): Desk {
    match op
    case Add(id, title, rect) => Retiled(d.(windows := d.windows + [View(id, title, rect, false)]))
    case Remove(id) => Retiled(d.(windows := Without(d.windows, id)))
    case SetLayout(layout) => Retiled(d.(layout := layout))
  }

  class TilingManager {
    var windows: seq<Window>
    var layout: string

    constructor ()
      ensures Valid() && Now() == Desk("master-stack", [])
    {
      windows, layout := [], "master-stack";
    }

    /** The windows are different objects. */
    predicate Valid()
      reads this
    {
      Different(windows)
    }

    function Now(): Desk
      reads this, windows
    {
      Desk(layout, Views(windows))
    }

    method TileWindows()
      requires Valid()
      modifies windows
      ensures Now() == Retiled(old(Now()))
      ensures if layout == "master-stack" then IsStacked(Views(windows)) else Views(windows) == old(Views(windows))
    {
      RetiledIsStacked(Now());
      if windows == [] || layout != "master-stack" {
        return;
      }
      PlaceAll();
    }

    method PlaceAll()
      requires Valid() && windows != []
      modifies windows
      ensures Views(windows) == Placed(old(Views(windows)), |windows|)
    {
      var n := |windows|;
      var stackHeight := if n > 1 then SCREEN_H / (n - 1) else SCREEN_H;
      for i := 0 to n
        invariant Views(windows) == Placed(old(Views(windows)), i)
      {
        ghost var before := Views(windows);
        if i == 0 {
          windows[0].MoveTo(0, 0, SCREEN_W / 2, SCREEN_H);
        } else {
          windows[i].MoveTo(SCREEN_W / 2, (i - 1) * stackHeight, SCREEN_W / 2, stackHeight);
        }
        assert Views(windows) == before[i := windows[i].Shown()];
      }
    }

    method AddWindow(id: string, title: string, x: int, y: int, w: int, h: int)
      requires Valid()
      modifies this, windows
      ensures Valid() && Now() == AfterOp(old(Now()), Add(id, title, Rect(x, y, w, h)))
      ensures layout == old(layout)
      ensures exists window ::
                && fresh(window) && windows == old(windows) + [window] && window.id == id && window.title == title
                && (layout != "master-stack" ==> window.Shown() == View(id, title, Rect(x, y, w, h), false))
    {
      var window := new Window(id, title, x, y, w, h);
      ghost var before := Views(windows);
      windows := windows + [window];
      assert Views(windows) == before + [window.Shown()];
      TileWindows();
    }

    method OthersThan(id: string) returns (kept: seq<Window>)
      requires Valid()
      ensures Different(kept) && Views(kept) == Without(Views(windows), id)
      ensures forall window :: window in kept <==> window in windows && window.id != id
    {
      OthersDiffer(windows, id);
      OthersViewed(windows, id);
      kept := [];
      for i := 0 to |windows|
        invariant kept == Others(windows[..i], id)
      {
        assert windows[..i + 1][..i] == windows[..i];
        if windows[i].id != id {
          kept := kept + [windows[i]];
        }
      }
      assert windows[..|windows|] == windows;
    }

    method RemoveWindow(id: string)
      requires Valid()
      modifies this, windows
      ensures Valid() && Now() == AfterOp(old(Now()), Remove(id))
      ensures forall window :: window in windows <==> window in old(windows) && window.id != id
      ensures layout == old(layout)
    {
      var kept := OthersThan(id);
      Keep(kept);
    }

    method Keep(kept: seq<Window>)
      requires Different(kept) && forall i | 0 <= i < |kept| :: kept[i] in windows
      modifies this, windows
      ensures Valid() && windows == kept && Now() == Retiled(Desk(old(layout), old(Views(kept))))
    {
      windows := kept;
      TileWindows();
    }

    method ChangeLayout(layout: string)
      requires Valid()
      modifies this, windows
      ensures Valid() && Now() == AfterOp(old(Now()), SetLayout(layout))
      ensures this.layout == layout && windows == old(windows)
    {
      this.layout := layout;
      TileWindows();
    }
  }

  // ---------- Every sequence of operations ----------

  function AfterOps(d: Desk, ops: seq<Op>): Desk
    decreases |ops|
  {
    if ops == [] then d else AfterOps(AfterOp(d, ops[0]), ops[1..])
  }

  /** The windows stand where tiling puts them. */
  predicate IsTiled(vs: seq<View>) {
    forall i | 0 <= i < |vs| :: vs[i].rect == Place(i, |vs|) && vs[i].tiled
  }

  predicate Settled(d: Desk) {
    d.layout == "master-stack" ==> IsTiled(d.windows)
  }

  /** However windows were added and removed and layouts switched, in the master-stack layout every
      window stands in its place. */
  lemma {:induction false} AlwaysSettled(d: Desk, ops: seq<Op>)
    requires Settled(d)
    ensures Settled(AfterOps(d, ops))
    decreases |ops|
  {
    if ops != [] {
      AlwaysSettled(AfterOp(d, ops[0]), ops[1..]);
    }
  }

  /** The first window fills the left half.  The others stand in the right half, one below the other in their
      order from the top, all of the same height. */
  predicate IsStacked(vs: seq<View>) {
    && (forall i | 0 <= i < |vs| :: vs[i].tiled)
    && (|vs| > 0 ==> vs[0].rect == Rect(0, 0, 960, 1080))
    && (|vs| > 1 ==> vs[1].rect == Rect(960, 0, 960, 1080 / (|vs| - 1)))
    && (forall i {:trigger vs[i]} | 1 <= i < |vs| - 1 ::
          var r := vs[i].rect; vs[i + 1].rect == Rect(960, r.y + r.h, 960, 1080 / (|vs| - 1)))
  }

  lemma TiledIsStacked(vs: seq<View>)
    requires IsTiled(vs)
    ensures IsStacked(vs)
  {
    forall i {:trigger vs[i]} | 1 <= i < |vs| - 1
      ensures vs[i + 1].rect == Rect(960, vs[i].rect.y + vs[i].rect.h, 960, 1080 / (|vs| - 1))
    {
      Step(i - 1, StackHeight(|vs| - 1));
    }
  }

  /** Tiling in the master-stack layout stacks the windows; in any other it leaves them where they are. */
  lemma RetiledIsStacked(d: Desk)
    ensures d.layout == "master-stack" ==> IsStacked(Retiled(d).windows)
    ensures d.layout != "master-stack" ==> Retiled(d) == d
    ensures Retiled(d).layout == d.layout && |Retiled(d).windows| == |d.windows|
  {
    if d.layout == "master-stack" {
      TiledIsStacked(Retiled(d).windows);
    }
  }

  /** After any sequence of operations on an empty desk, the windows of the master-stack layout are stacked. */
  lemma AlwaysStacked(ops: seq<Op>)
    ensures var d := AfterOps(Desk("master-stack", []), ops); d.layout == "master-stack" ==> IsStacked(d.windows)
  {
    var d := AfterOps(Desk("master-stack", []), ops);
    AlwaysSettled(Desk("master-stack", []), ops);
    if d.layout == "master-stack" {
      TiledIsStacked(d.windows);
    }
  }

  /** A removal keeps exactly the windows with another id, in their order. */
  lemma {:induction false} RemovalIsExact(vs: seq<View>, id: string) returns (at: seq<nat>)
    ensures Keeps(vs, Without(vs, id), at)
    ensures forall i | 0 <= i < |vs| :: i in at <==> vs[i].id != id
  {
    at := [];
    if vs != [] {
      var n := |vs| - 1;
      at := RemovalIsExact(vs[..n], id);
      assert vs == vs[..n] + [vs[n]];
      KeepsNext(vs[..n], Without(vs[..n], id), at, vs[n]);
      if vs[n].id != id {
        at := at + [n];
      }
    }
  }

  /** Tiling moves windows and does nothing else, and tiling again does nothing at all. */
  lemma RetilingKeeps(d: Desk)
    ensures Retiled(Retiled(d)) == Retiled(d)
    ensures |Retiled(d).windows| == |d.windows| && Retiled(d).layout == d.layout
    ensures forall i | 0 <= i < |d.windows| ::
              Retiled(d).windows[i].id == d.windows[i].id && Retiled(d).windows[i].title == d.windows[i].title
    ensures Settled(d) && d.layout == "master-stack" ==> Retiled(d) == d
  {
  }

  // ---------- Geometry ----------

  predicate Covers(r: Rect, px: int, py: int) {
    r.x <= px < r.x + r.w && r.y <= py < r.y + r.h
  }

  predicate OnScreen(px: int, py: int) {
    0 <= px < SCREEN_W && 0 <= py < SCREEN_H
  }

  lemma StackFits(i: nat, k: nat)
    requires i <= k && 0 < k
    ensures 0 <= i * StackHeight(k) <= SCREEN_H - SCREEN_H % k
    ensures k * StackHeight(k) == SCREEN_H - SCREEN_H % k && 0 <= StackHeight(k)
  {
    var h := StackHeight(k);
    Divide(SCREEN_H, k);
    StackHeightNonnegative(k);
    Grows(0, i, h);
    Grows(i, k, h);
  }

  lemma StackHeightNonnegative(k: nat)
    requires 0 < k
    ensures 0 <= StackHeight(k)
  {
    QuotientBound(0, k, SCREEN_H);
  }

  /** Every window lies on the screen. */
  lemma InsideScreen(vs: seq<View>, i: nat)
    requires IsTiled(vs) && i < |vs|
    ensures var r := vs[i].rect;
            0 <= r.x && r.x + r.w <= SCREEN_W && 0 <= r.y && r.y + r.h <= SCREEN_H && 0 < r.w && 0 <= r.h
  {
    if i > 0 {
      var k := |vs| - 1;
      StackFits(i - 1, k);
      StackFits(i, k);
      Step(i - 1, StackHeight(k));
    }
  }

  /** No two windows share a pixel. */
  lemma NoOverlap(vs: seq<View>, i: nat, j: nat, px: int, py: int)
    requires IsTiled(vs) && i < j < |vs|
    ensures !(Covers(vs[i].rect, px, py) && Covers(vs[j].rect, px, py))
  {
    if i > 0 {
      var h := StackHeight(|vs| - 1);
      StackHeightNonnegative(|vs| - 1);
      Step(i - 1, h);
      Grows(i, j - 1, h);
    }
  }

  predicate Covered(vs: seq<View>, px: int, py: int) {
    exists i :: 0 <= i < |vs| && Covers(vs[i].rect, px, py)
  }

  /** Exactly these pixels are covered: the left half, once there is a window, and with `k` stacked
      windows the right half down to the last `SCREEN_H % k` rows. */
  lemma Coverage(vs: seq<View>, px: int, py: int)
    requires IsTiled(vs) && OnScreen(px, py)
    ensures Covered(vs, px, py) <==>
            vs != [] && (px < SCREEN_W / 2 || (|vs| > 1 && py < SCREEN_H - SCREEN_H % (|vs| - 1)))
  {
    if vs != [] && px < SCREEN_W / 2 {
      assert Covers(vs[0].rect, px, py);
    } else if |vs| > 1 {
      StackCoverage(vs, px, py);
    }
  }

  lemma StackCoverage(vs: seq<View>, px: int, py: int)
    requires IsTiled(vs) && OnScreen(px, py) && |vs| > 1 && px >= SCREEN_W / 2
    ensures Covered(vs, px, py) <==> py < SCREEN_H - SCREEN_H % (|vs| - 1)
  {
    var k := |vs| - 1;
    var h := StackHeight(k);
    if py < SCREEN_H - SCREEN_H % k {
      var i := RowOfStack(k, py);
      assert Covers(vs[i + 1].rect, px, py);
    } else {
      forall i | 0 <= i < |vs| ensures !Covers(vs[i].rect, px, py) {
        if i > 0 {
          StackFits(i, k);
          Step(i - 1, h);
        }
      }
    }
  }

  /** The stacked window that shows a given row. */
  lemma RowOfStack(k: nat, py: nat) returns (i: nat)
    requires 0 < k && py < SCREEN_H - SCREEN_H % k
    ensures i < k && i * StackHeight(k) <= py < i * StackHeight(k) + StackHeight(k)
  {
    var h := StackHeight(k);
    StackFits(0, k);
    LessByFactor(0, h, k);
    Divide(py, h);
    QuotientBound(0, h, py);
    i := py / h;
    LessByFactor(i, k, h);
  }
}
