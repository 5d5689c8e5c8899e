/** The detector's two small pieces of state outside the inference: the colour
    each class name is drawn in, and the counter that skips frames. */
module Presentation {
  import opened Numeric

  /** The seven outline colours, handed out in this order. */
  const Palette: seq<string> := ["#60a5fa", "#34d399", "#facc15", "#f472b6", "#c084fc", "#fb7185", "#5eead4"]

  /** The module-level class-to-colour map. */
  class ColorCache {
    var colors: map<string, string>
    /** The class names in the order they were first asked for. */
    ghost var order: seq<string>

    /** The n-th distinct class asked for (from 0) has palette colour n mod 7. */
    ghost predicate Valid()
      reads this
    {
      && |order| == |colors|
      && (forall i, j :: 0 <= i < j < |order| ==> order[i] != order[j])
      && (forall c :: c in colors <==> c in order)
      && (forall i :: 0 <= i < |order| ==> colors[order[i]] == Palette[i % |Palette|])
    }

    constructor ()
      ensures Valid() && colors == map[] && order == []
    {
      colors := map[];
      order := [];
    }

    /** colorFor: the class's colour, handing the next palette colour to a class
        not seen before and leaving the map alone for one already seen. */
    method ColorFor(cls: string) returns (color: string)
      requires Valid()
      modifies this
      ensures Valid()
      ensures cls in colors && colors[cls] == color
      ensures forall c :: c in old(colors) ==> c in colors && colors[c] == old(colors)[c]
      ensures cls in old(colors) ==> color == old(colors)[cls] && colors == old(colors) && order == old(order)
      ensures cls !in old(colors) ==>
                && color == Palette[|old(colors)| % |Palette|]
                && colors == old(colors)[cls := color]
                && order == old(order) + [cls]
    {
      if cls in colors {
        color := colors[cls];
      } else {
        color := Palette[|colors| % |Palette|];
        colors := colors[cls := color];
        order := order + [cls];
      }
    }
  }

  /** Asking twice for the same class gives the same colour, whatever was asked in
      between, and the colour is the palette entry of the class's first-seen rank. */
  method ColorForIsStable(cache: ColorCache, cls: string, other: string)
    returns (first: string, second: string)
    requires cache.Valid()
    modifies cache
    ensures cache.Valid()
    ensures first == second
    ensures exists i :: 0 <= i < |cache.order| && cache.order[i] == cls && first == Palette[i % |Palette|]
  {
    first := cache.ColorFor(cls);
    var _ := cache.ColorFor(other);
    second := cache.ColorFor(cls);
    ghost var i :| 0 <= i < |cache.order| && cache.order[i] == cls;
  }

  /** The frame counter and the stride test of the render loop. */
  class FrameGate {
    var counter: nat

    /** The counter starts at 0, and is reset to 0 when detection starts or stops. */
    constructor ()
      ensures counter == 0
    {
      counter := 0;
    }

    method Reset()
      modifies this
      ensures counter == 0
    {
      counter := 0;
    }

    /** One animation frame: the counter goes up by one and the frame is processed
        exactly when the counter is a multiple of the stride setting, taken to be at
        least 1. */
    method Tick(strideSetting: int) returns (process: bool)
      modifies this
      ensures counter == old(counter) + 1
      ensures process <==> counter % EffectiveStride(strideSetting) == 0
    {
      counter := counter + 1;
      var stride := EffectiveStride(strideSetting);
      process := !(stride > 1 && counter % stride != 0);
    }
  }

  /** Math.max(1, stride). */
  function EffectiveStride(strideSetting: int): (s: nat)
    ensures s >= 1 && s >= strideSetting
    ensures strideSetting >= 1 ==> s == strideSetting
  {
    if strideSetting >= 1 then strideSetting else 1
  }

  /** How many of the frames numbered 1 .. n the gate lets through at stride s. */
  function Processed(n: nat, s: nat): nat
    requires s >= 1
  {
    if n == 0 then 0 else Processed(n - 1, s) + (if n % s == 0 then 1 else 0)
  }

  lemma DivModUnique(n: nat, s: nat, q: nat, m: nat)
    requires s >= 1 && m < s && n == q * s + m
    ensures n / s == q && n % s == m
  {
    var q', m' := n / s, n % s;
    assert n == q' * s + m';
    FlatDistinct(s, q, m, q', m');
  }

  /** With a fixed stride s, n frames yield floor(n / s) processed ones. */
  lemma {:induction false} ProcessedCount(n: nat, s: nat)
    requires s >= 1
    ensures Processed(n, s) == n / s
  {
    if n > 0 {
      ProcessedCount(n - 1, s);
      var q, m := (n - 1) / s, (n - 1) % s;
      DivModUnique(n - 1, s, q, m);
      if m + 1 < s {
        DivModUnique(n, s, q, m + 1);
      } else {
        DivModUnique(n, s, q + 1, 0);
      }
    }
  }

  /** The render loop's gate over n frames from a start or stop: the counter is
      reset, then ticked once per frame at a fixed stride setting; the number of
      frames processed is n divided by the effective stride, rounded down. */
  method RunFrames(gate: FrameGate, strideSetting: int, n: nat) returns (processed: nat)
    modifies gate
    ensures gate.counter == n
    ensures processed == n / EffectiveStride(strideSetting)
  {
    var s := EffectiveStride(strideSetting);
    gate.Reset();
    processed := 0;
    for i := 0 to n
      invariant gate.counter == i
      invariant processed == Processed(i, s)
    {
      var process := gate.Tick(strideSetting);
      if process {
        processed := processed + 1;
      }
    }
    ProcessedCount(n, s);
  }
}

