/** Package layout, file box.go: a Box lays its children out in one row
    (or one column when vertical), separated and surrounded by a gap. */
module Box {
  import opened Outcome
  import opened Geom
  import opened Split

  /** The options `BoxVertical`, `BoxBackground`, `BoxSplit` and `BoxGap`. */
  datatype BoxOption =
    | BoxVertical
    | BoxBackground(c: Color)
    | BoxSplit(f: Option<(int, int) -> seq<int>>)
    | BoxGap(gap: int)

  /** The fields of a Box (its Contents only by their number). */
  datatype BoxConfig = BoxConfig(items: nat, background: Color, split: Splitter, gap: int, vertical: bool)

  /** What `NewBox` sets before applying the options. */
  function Defaults(items: nat): BoxConfig
  {
    BoxConfig(items, Black, Even, 0, false)
  }

  function ApplyOption(c: BoxConfig, o: BoxOption): BoxConfig
  {
    match o
    case BoxVertical => c.(vertical := true)
    case BoxBackground(col) => c.(background := col)
    case BoxSplit(f) => c.(split := Installed(f))
    case BoxGap(g) => c.(gap := g)
  }

  /** The splitter a `BoxSplit` option installs: unlike `Grid`, a Box does
      not fall back to the even split for nil. */
  function Installed(f: Option<(int, int) -> seq<int>>): Splitter
  {
    if f.Some? then Custom(f.value) else Nil
  }

  /** The options applied one after another, in order. */
  function Configure(c: BoxConfig, opts: seq<BoxOption>): BoxConfig
    decreases |opts|
  {
    if opts == [] then c else ApplyOption(Configure(c, opts[..|opts| - 1]), opts[|opts| - 1])
  }

  /** The gap is the one of the last `BoxGap` option, or 0 when there is none;
      the items never change. */
  lemma {:induction false} ConfigureGap(items: nat, opts: seq<BoxOption>)
    ensures Configure(Defaults(items), opts).items == items
    ensures (forall j :: 0 <= j < |opts| ==> !opts[j].BoxGap?) ==> Configure(Defaults(items), opts).gap == 0
    ensures forall i :: 0 <= i < |opts| && opts[i].BoxGap? && (forall j :: i < j < |opts| ==> !opts[j].BoxGap?)
                        ==> Configure(Defaults(items), opts).gap == opts[i].gap
    decreases |opts|
  {
    if opts != [] {
      var init := opts[..|opts| - 1];
      ConfigureGap(items, init);
      forall i | 0 <= i < |opts| - 1 && opts[i].BoxGap? && (forall j :: i < j < |opts| ==> !opts[j].BoxGap?)
        ensures Configure(Defaults(items), opts).gap == opts[i].gap
      {
        assert init[i] == opts[i];
        assert forall j :: i < j < |init| ==> init[j] == opts[j];
      }
      assert forall j :: 0 <= j < |init| ==> init[j] == opts[j];
    }
  }

  /** The background is the one of the last `BoxBackground` option, or
      black when there is none. */
  lemma {:induction false} ConfigureBackground(items: nat, opts: seq<BoxOption>)
    ensures (forall j :: 0 <= j < |opts| ==> !opts[j].BoxBackground?) ==> Configure(Defaults(items), opts).background == Black
    ensures forall i :: 0 <= i < |opts| && opts[i].BoxBackground? && (forall j :: i < j < |opts| ==> !opts[j].BoxBackground?)
                        ==> Configure(Defaults(items), opts).background == opts[i].c
    decreases |opts|
  {
    if opts != [] {
      var init := opts[..|opts| - 1];
      ConfigureBackground(items, init);
      assert Configure(Defaults(items), opts) == ApplyOption(Configure(Defaults(items), init), opts[|opts| - 1]);
      forall i | 0 <= i < |opts| - 1 && opts[i].BoxBackground? && (forall j :: i < j < |opts| ==> !opts[j].BoxBackground?)
        ensures Configure(Defaults(items), opts).background == opts[i].c
      {
        assert init[i] == opts[i];
        assert forall j :: i < j < |init| ==> init[j] == opts[j];
      }
      assert forall j :: 0 <= j < |init| ==> init[j] == opts[j];
    }
  }

  /** The splitter is the one the last `BoxSplit` option installs (nil for
      a nil function), or the even split when there is none. */
  lemma {:induction false} ConfigureSplit(items: nat, opts: seq<BoxOption>)
    ensures (forall j :: 0 <= j < |opts| ==> !opts[j].BoxSplit?) ==> Configure(Defaults(items), opts).split == Even
    ensures forall i :: 0 <= i < |opts| && opts[i].BoxSplit? && (forall j :: i < j < |opts| ==> !opts[j].BoxSplit?)
                        ==> Configure(Defaults(items), opts).split == Installed(opts[i].f)
    decreases |opts|
  {
    if opts != [] {
      var init := opts[..|opts| - 1];
      ConfigureSplit(items, init);
      var prev := Configure(Defaults(items), init);
      var last := opts[|opts| - 1];
      assert Configure(Defaults(items), opts) == ApplyOption(prev, last);
      assert forall j :: 0 <= j < |init| ==> init[j] == opts[j];
      if last.BoxSplit? {
        assert Configure(Defaults(items), opts).split == Installed(last.f);
      } else {
        assert Configure(Defaults(items), opts).split == prev.split;
        forall i | 0 <= i < |opts| - 1 && opts[i].BoxSplit? && (forall j :: i < j < |opts| ==> !opts[j].BoxSplit?)
          ensures Configure(Defaults(items), opts).split == Installed(opts[i].f)
        {
          assert init[i] == opts[i];
          assert forall j :: i < j < |init| ==> !init[j].BoxSplit?;
        }
      }
    }
  }

  /** A Box is vertical exactly when some option made it so. */
  lemma {:induction false} ConfigureVertical(items: nat, opts: seq<BoxOption>)
    ensures Configure(Defaults(items), opts).vertical <==> exists j :: 0 <= j < |opts| && opts[j].BoxVertical?
    decreases |opts|
  {
    if opts != [] {
      var init := opts[..|opts| - 1];
      ConfigureVertical(items, init);
      assert Configure(Defaults(items), opts) == ApplyOption(Configure(Defaults(items), init), opts[|opts| - 1]);
      assert forall j :: 0 <= j < |init| ==> init[j] == opts[j];
      if opts[|opts| - 1].BoxVertical? {
        assert exists j :: 0 <= j < |opts| && opts[j].BoxVertical?;
      }
    }
  }

  /** Where element i starts along the split axis: after the leading gap,
      the lengths before it and one gap after each of them. */
  function Start(origin: int, spl: seq<int>, gap: int, i: nat): int
    requires i <= |spl|
  {
    origin + gap + Sum(spl[..i]) + i * gap
  }

  lemma StartStep(origin: int, spl: seq<int>, gap: int, i: nat)
    requires i < |spl|
    ensures Start(origin, spl, gap, i + 1) == Start(origin, spl, gap, i) + spl[i] + gap
  {
    SumPrefixStep(spl, i);
    assert (i + 1) * gap == i * gap + gap;
  }

  /** The rectangle of an entry of length `item` starting at `pos` along
      the split axis, one gap in from the sides across it. */
  function CellFrom(bounds: Rect, gap: int, vertical: bool, pos: int, item: int): Rect
  {
    if vertical then MakeRect(bounds.min.x + gap, pos, bounds.max.x - gap, pos + item)
    else MakeRect(pos, bounds.min.y + gap, pos + item, bounds.max.y - gap)
  }

  /** The rectangles `Lay` builds for the given split lengths. */
  function Cells(bounds: Rect, gap: int, vertical: bool, spl: seq<int>): (cells: seq<Rect>)
    ensures |cells| == |spl|
  {
    seq(|spl|, i requires 0 <= i < |spl| =>
      CellFrom(bounds, gap, vertical, Start(if vertical then bounds.min.y else bounds.min.x, spl, gap, i), spl[i]))
  }

  /** The length a Box splits among its items: the extent along the split
      axis minus one gap before, between and after the items. */
  function Available(bounds: Rect, gap: int, vertical: bool, items: nat): int
  {
    (if vertical then Dy(bounds) else Dx(bounds)) - gap * (items + 1)
  }

  class Box {
    var items: nat
    var background: Color
    var split: Splitter
    var gap: int
    var vertical: bool

    function Config(): BoxConfig
      reads this
    {
      BoxConfig(items, background, split, gap, vertical)
    }

    /** `NewBox`: the defaults, then every option in order. */
    constructor NewBox(items: nat, options: seq<BoxOption>)
      ensures Config() == Configure(Defaults(items), options)
    {
      this.items := items;
      background := Black;
      split := Even;
      gap := 0;
      vertical := false;
      new;
      var k := 0;
      while k < |options|
        invariant 0 <= k <= |options|
        invariant Config() == Configure(Defaults(items), options[..k])
        modifies this
      {
        assert options[..k + 1][..k] == options[..k];
        Apply(options[k]);
        k := k + 1;
      }
      assert options[..k] == options;
    }

    /** One option function applied to the Box: it assigns exactly one field. */
    method Apply(o: BoxOption)
      modifies this
      ensures Config() == ApplyOption(old(Config()), o)
      ensures o.BoxVertical? ==> vertical && unchanged(this`items, this`background, this`split, this`gap)
      ensures o.BoxBackground? ==> background == o.c && unchanged(this`items, this`split, this`gap, this`vertical)
      ensures o.BoxSplit? ==> split == Installed(o.f) && unchanged(this`items, this`background, this`gap, this`vertical)
      ensures o.BoxGap? ==> gap == o.gap && unchanged(this`items, this`background, this`split, this`vertical)
    {
      match o {
        case BoxVertical => vertical := true;
        case BoxBackground(c) => background := c;
        case BoxSplit(f) => split := Installed(f);
        case BoxGap(g) => gap := g;
      }
    }

    /** `Lay`: split the available length, then lay one rectangle per
        split entry; a nil split function panics when it is called. */
    method Lay(bounds: Rect) returns (r: Result<seq<Rect>>)
      ensures r.Panic? <==> split.Nil?
      ensures r.Panic? ==> r.reason == NilDereference
      ensures r.Ok? ==> var spl := Split.Apply(split, items, Available(bounds, gap, vertical, items)).value;
                        r.value == Cells(bounds, gap, vertical, spl)
    {
      var s := Call(split, items, Available(bounds, gap, vertical, items));
      if s.Panic? {
        return Panic(s.reason);
      }
      var ret := LayCells(bounds, gap, vertical, s.value);
      return Ok(ret);
    }
  }

  /** The loop of `Lay`: walk along the axis placing one rectangle per
      split entry, one gap apart. */
  method LayCells(bounds: Rect, g: int, v: bool, spl: seq<int>) returns (ret: seq<Rect>)
    ensures ret == Cells(bounds, g, v, spl)
  {
    ghost var cells := Cells(bounds, g, v, spl);
    ghost var origin := if v then bounds.min.y else bounds.min.x;
    ret := [];
    var pos := (if v then bounds.min.y else bounds.min.x) + g;
    var i := 0;
    while i < |spl|
      invariant 0 <= i <= |spl|
      invariant pos == Start(origin, spl, g, i)
      invariant ret == cells[..i]
    {
      var item := spl[i];
      var c: Rect;
      if v {
        c := MakeRect(bounds.min.x + g, pos, bounds.max.x - g, pos + item);
      } else {
        c := MakeRect(pos, bounds.min.y + g, pos + item, bounds.max.y - g);
      }
      assert c == CellFrom(bounds, g, v, pos, item) == cells[i];
      assert cells[..i + 1] == cells[..i] + [c];
      ret := ret + [c];
      StartStep(origin, spl, g, i);
      pos := pos + item + g;
      i := i + 1;
    }
    assert cells[..i] == cells;
  }

  /** Horizontally, with non-negative lengths and a bounds tall enough for
      the gaps: each rectangle spans Y from Min.Y+Gap to Max.Y-Gap, is as
      wide as its entry, the first starts at Min.X+Gap and each next one
      starts one gap after the previous one ends. */
  lemma HorizontalCells(bounds: Rect, gap: int, spl: seq<int>, i: nat)
    requires i < |spl| && spl[i] >= 0
    requires bounds.min.y + gap <= bounds.max.y - gap
    ensures var c := Cells(bounds, gap, false, spl)[i];
            c.min.y == bounds.min.y + gap && c.max.y == bounds.max.y - gap && Dx(c) == spl[i]
    ensures i == 0 ==> Cells(bounds, gap, false, spl)[i].min.x == bounds.min.x + gap
    ensures i + 1 < |spl| && spl[i + 1] >= 0 ==>
              Cells(bounds, gap, false, spl)[i + 1].min.x == Cells(bounds, gap, false, spl)[i].max.x + gap
  {
    if i + 1 < |spl| {
      StartStep(bounds.min.x, spl, gap, i);
    }
  }

  /** With the default split and a non-negative available length, the last
      rectangle ends exactly one gap before Max.X. */
  lemma LastCellEnds(bounds: Rect, gap: int, items: nat)
    requires items > 0
    requires Available(bounds, gap, false, items) >= 0
    ensures var spl := Split.Apply(Even, items, Available(bounds, gap, false, items)).value;
            Cells(bounds, gap, false, spl)[items - 1].max.x == bounds.max.x - gap
  {
    var avail := Available(bounds, gap, false, items);
    var spl := Split.Apply(Even, items, avail).value;
    EvenSplitSum(items, avail);
    EvenSplitAlmostEven(items, avail, items - 1, items - 1);
    StartStep(bounds.min.x, spl, gap, items - 1);
    assert spl[..items] == spl;
    assert gap * (items + 1) == items * gap + gap;
  }

  /** Vertical mode is horizontal mode with X and Y swapped. */
  lemma VerticalIsTransposed(bounds: Rect, gap: int, spl: seq<int>)
    ensures Available(bounds, gap, true, |spl|) == Available(Transpose(bounds), gap, false, |spl|)
    ensures forall i :: 0 <= i < |spl| ==>
              Cells(bounds, gap, true, spl)[i] == Transpose(Cells(Transpose(bounds), gap, false, spl)[i])
  {
    forall i | 0 <= i < |spl|
      ensures Cells(bounds, gap, true, spl)[i] == Transpose(Cells(Transpose(bounds), gap, false, spl)[i])
    {
      var x := Start(bounds.min.y, spl, gap, i);
      TransposeMakeRect(x, bounds.min.x + gap, x + spl[i], bounds.max.x - gap);
    }
  }
}
