/** A model of the Y-axis rotator of Rotating.js: a rotation angle that one
    update advances by a full cycle, and the inline styles of the rotated
    webpage elements, onto which each update writes a transform (and, when
    the angle wraps around, a transition that is switched off and on again). */
module Rotating {

  // ---------------------------------------------------------------------------
  // Configuration (all angles in degrees)
  // ---------------------------------------------------------------------------

  /** The rotation for a full cycle. */
  const FULL_ROTATION_CYCLE := 180
  /** The rotation for half a cycle. */
  const HALF_ROTATION_CYCLE := FULL_ROTATION_CYCLE / 2
  /** The initial rotation. */
  const START_ROTATION_CYCLE := -HALF_ROTATION_CYCLE
  /** The final rotation. */
  const END_ROTATION_CYCLE := START_ROTATION_CYCLE + FULL_ROTATION_CYCLE
  /** The duration of one rotation step (and of its CSS transition), in milliseconds. */
  const SPEED := 1000

  /** The derived constants fit together: the half cycle is an exact half,
      the range is centred on zero and is one full cycle wide. */
  lemma ConstantsConsistent()
    ensures 2 * HALF_ROTATION_CYCLE == FULL_ROTATION_CYCLE
    ensures START_ROTATION_CYCLE == -HALF_ROTATION_CYCLE
    ensures END_ROTATION_CYCLE == START_ROTATION_CYCLE + FULL_ROTATION_CYCLE
    ensures START_ROTATION_CYCLE < END_ROTATION_CYCLE
    ensures END_ROTATION_CYCLE == HALF_ROTATION_CYCLE
  {
  }

  // ---------------------------------------------------------------------------
  // Element styles and the writes made to them
  // ---------------------------------------------------------------------------

  /** The value of an element's `transform` style: the one this code writes,
      `rotateY(<degrees>deg)`, or whatever the page had set before. */
  datatype Transform = RotateY(degrees: int) | OtherTransform(css: string)

  /** The value of an element's `transition` style: cleared (set to null),
      the one this code writes, `transform <millis>ms linear`, or whatever
      the page had set before. */
  datatype Transition = Cleared | TransformLinear(millis: int) | OtherTransition(css: string)

  /** The inline style of one rotated element. */
  datatype Style = Style(transform: Transform, transition: Transition)

  /** One observable step of an update on the element at `index`: a write of
      its transition, a write of its transform, or the read of its
      `offsetHeight` that makes the browser lay it out (a flush). */
  datatype StyleWrite =
    | WriteTransition(index: nat, transition: Transition)
    | WriteTransform(index: nat, transform: Transform)
    | Flush(index: nat)

  /** The styles after one write. A flush changes no style. */
  function Apply(styles: seq<Style>, w: StyleWrite): seq<Style>
  {
    if w.index < |styles| then
      match w
      case WriteTransition(i, t) => styles[i := styles[i].(transition := t)]
      case WriteTransform(i, t) => styles[i := styles[i].(transform := t)]
      case Flush(_) => styles
    else styles
  }

  /** The styles after a sequence of writes, applied in order. */
  function Replay(styles: seq<Style>, trace: seq<StyleWrite>): seq<Style>
    decreases |trace|
  {
    if trace == [] then styles
    else Replay(Apply(styles, trace[0]), trace[1..])
  }

  /** The writes of `trace` that concern the element at `k`, in order. */
  function WritesTo(trace: seq<StyleWrite>, k: nat): seq<StyleWrite>
  {
    if trace == [] then []
    else (if trace[0].index == k then [trace[0]] else []) + WritesTo(trace[1..], k)
  }

  // ---------------------------------------------------------------------------
  // The specification of one update
  // ---------------------------------------------------------------------------

  /** Whether an update from `rotation` overshoots the final rotation and so
      takes the wrap branch. */
  predicate Wraps(rotation: int)
    ensures Wraps(rotation) <==> rotation > START_ROTATION_CYCLE
  {
    rotation + FULL_ROTATION_CYCLE > END_ROTATION_CYCLE
  }

  /** The rotation after one update from `rotation`, following the source's
      self-call in the wrap branch. That self-call starts from the initial
      rotation, which does not wrap, so it goes one level deep only. */
  function UpdatedRotation(rotation: int): (r: int)
    decreases if Wraps(rotation) then 1 else 0
    ensures Wraps(rotation) ==> r == END_ROTATION_CYCLE
    ensures !Wraps(rotation) ==> r == rotation + FULL_ROTATION_CYCLE
    ensures r <= END_ROTATION_CYCLE
    ensures START_ROTATION_CYCLE <= rotation <= END_ROTATION_CYCLE ==> r == END_ROTATION_CYCLE
  {
    if Wraps(rotation) then UpdatedRotation(START_ROTATION_CYCLE)
    else rotation + FULL_ROTATION_CYCLE
  }

  /** The four steps the wrap branch takes on the element at `i`: clear the
      transition, jump to the initial rotation, flush, re-enable the transition. */
  function ResetWrites(i: nat): (r: seq<StyleWrite>)
    ensures |r| == 4
    ensures forall j :: 0 <= j < |r| ==> r[j].index == i
  {
    [ WriteTransition(i, Cleared),
      WriteTransform(i, RotateY(START_ROTATION_CYCLE)),
      Flush(i),
      WriteTransition(i, TransformLinear(SPEED)) ]
  }

  /** The writes of the wrap branch's loop over the first `n` elements. */
  function ResetTrace(n: nat): (r: seq<StyleWrite>)
    ensures |r| == 4 * n
  {
    if n == 0 then [] else ResetTrace(n - 1) + ResetWrites(n - 1)
  }

  /** The writes of the normal branch's loop over the first `n` elements. */
  function RotateTrace(angle: int, n: nat): (r: seq<StyleWrite>)
    ensures |r| == n
  {
    if n == 0 then [] else RotateTrace(angle, n - 1) + [WriteTransform(n - 1, RotateY(angle))]
  }

  /** Every write one update from `rotation` makes to `n` elements, in order. */
  function UpdateTrace(rotation: int, n: nat): (r: seq<StyleWrite>)
    decreases if Wraps(rotation) then 1 else 0
    ensures |r| == if Wraps(rotation) then 5 * n else n
  {
    if Wraps(rotation) then ResetTrace(n) + UpdateTrace(START_ROTATION_CYCLE, n)
    else RotateTrace(rotation + FULL_ROTATION_CYCLE, n)
  }

  // ---------------------------------------------------------------------------
  // Properties of the specification
  // ---------------------------------------------------------------------------

  /** Replaying two traces one after the other is replaying their concatenation. */
  lemma {:induction false} ReplayAppend(styles: seq<Style>, a: seq<StyleWrite>, b: seq<StyleWrite>)
    ensures Replay(styles, a + b) == Replay(Replay(styles, a), b)
    decreases |a|
  {
    if a == [] {
      assert a + b == b;
    } else {
      assert (a + b)[0] == a[0];
      assert (a + b)[1..] == a[1..] + b;
      ReplayAppend(Apply(styles, a[0]), a[1..], b);
    }
  }

  /** Writes never add or remove elements. */
  lemma {:induction false} ReplayLength(styles: seq<Style>, trace: seq<StyleWrite>)
    ensures |Replay(styles, trace)| == |styles|
    decreases |trace|
  {
    if trace != [] {
      ReplayLength(Apply(styles, trace[0]), trace[1..]);
    }
  }

  /** Selecting one element's writes distributes over concatenation. */
  lemma {:induction false} WritesToAppend(a: seq<StyleWrite>, b: seq<StyleWrite>, k: nat)
    ensures WritesTo(a + b, k) == WritesTo(a, k) + WritesTo(b, k)
    decreases |a|
  {
    if a == [] {
      assert a + b == b;
    } else {
      var head := if a[0].index == k then [a[0]] else [];
      assert (a + b)[0] == a[0];
      assert (a + b)[1..] == a[1..] + b;
      WritesToAppend(a[1..], b, k);
      assert WritesTo(a + b, k) == head + (WritesTo(a[1..], k) + WritesTo(b, k));
      assert WritesTo(a, k) == head + WritesTo(a[1..], k);
    }
  }

  /** Replaying a single write is applying it. */
  lemma ReplayOne(styles: seq<Style>, w: StyleWrite)
    ensures Replay(styles, [w]) == Apply(styles, w)
  {
    assert [w][1..] == [];
  }

  /** The wrap steps on one element leave it at the initial rotation with
      the transition enabled, and leave every other element alone. */
  lemma ResetWritesEffect(styles: seq<Style>, i: nat)
    requires i < |styles|
    ensures Replay(styles, ResetWrites(i))
         == styles[i := Style(RotateY(START_ROTATION_CYCLE), TransformLinear(SPEED))]
  {
    var w := ResetWrites(i);
    assert w == [w[0]] + [w[1]] + [w[2]] + [w[3]];
    var s1 := Apply(styles, w[0]);
    var s2 := Apply(s1, w[1]);
    var s3 := Apply(s2, w[2]);
    var s4 := Apply(s3, w[3]);
    ReplayAppend(styles, [w[0]] + [w[1]] + [w[2]], [w[3]]);
    ReplayAppend(styles, [w[0]] + [w[1]], [w[2]]);
    ReplayAppend(styles, [w[0]], [w[1]]);
    ReplayOne(styles, w[0]);
    ReplayOne(s1, w[1]);
    ReplayOne(s2, w[2]);
    ReplayOne(s3, w[3]);
    assert s4 == styles[i := Style(RotateY(START_ROTATION_CYCLE), TransformLinear(SPEED))];
  }

  /** A single write concerns element `k` or not. */
  lemma WritesToOne(w: StyleWrite, k: nat)
    ensures WritesTo([w], k) == if w.index == k then [w] else []
  {
    assert [w][1..] == [];
  }

  /** Only the element the wrap steps are for is written by them. */
  lemma ResetWritesTo(i: nat, k: nat)
    ensures WritesTo(ResetWrites(i), k) == if i == k then ResetWrites(i) else []
  {
    var w := ResetWrites(i);
    assert w == [w[0]] + [w[1]] + [w[2]] + [w[3]];
    WritesToAppend([w[0]] + [w[1]] + [w[2]], [w[3]], k);
    WritesToAppend([w[0]] + [w[1]], [w[2]], k);
    WritesToAppend([w[0]], [w[1]], k);
    WritesToOne(w[0], k);
    WritesToOne(w[1], k);
    WritesToOne(w[2], k);
    WritesToOne(w[3], k);
  }

  /** The wrap branch's loop over the first `n` elements: those elements sit
      at the initial rotation with the transition enabled, the rest are
      unchanged. */
  lemma {:induction false} ResetTraceEffect(styles: seq<Style>, n: nat)
    requires n <= |styles|
    ensures |Replay(styles, ResetTrace(n))| == |styles|
    ensures forall k :: 0 <= k < n ==>
      Replay(styles, ResetTrace(n))[k] == Style(RotateY(START_ROTATION_CYCLE), TransformLinear(SPEED))
    ensures forall k :: n <= k < |styles| ==> Replay(styles, ResetTrace(n))[k] == styles[k]
  {
    if n > 0 {
      ResetTraceEffect(styles, n - 1);
      ReplayAppend(styles, ResetTrace(n - 1), ResetWrites(n - 1));
      ResetWritesEffect(Replay(styles, ResetTrace(n - 1)), n - 1);
    }
  }

  /** The normal branch's loop over the first `n` elements: those elements
      show `angle` and keep their transition, the rest are unchanged. */
  lemma {:induction false} RotateTraceEffect(styles: seq<Style>, angle: int, n: nat)
    requires n <= |styles|
    ensures |Replay(styles, RotateTrace(angle, n))| == |styles|
    ensures forall k :: 0 <= k < n ==>
      Replay(styles, RotateTrace(angle, n))[k] == Style(RotateY(angle), styles[k].transition)
    ensures forall k :: n <= k < |styles| ==> Replay(styles, RotateTrace(angle, n))[k] == styles[k]
  {
    if n > 0 {
      var w := WriteTransform(n - 1, RotateY(angle));
      RotateTraceEffect(styles, angle, n - 1);
      ReplayAppend(styles, RotateTrace(angle, n - 1), [w]);
      ReplayOne(Replay(styles, RotateTrace(angle, n - 1)), w);
    }
  }

  /** `after` is what one update from `rotation` makes of the styles
      `before`: no element is added or removed, every transform shows the
      updated rotation, and every transition is enabled if the update wrapped
      and untouched otherwise. */
  ghost predicate ShowsUpdate(before: seq<Style>, after: seq<Style>, rotation: int)
  {
    |after| == |before| &&
    (forall k :: 0 <= k < |after| ==> after[k].transform == RotateY(UpdatedRotation(rotation))) &&
    (forall k :: 0 <= k < |after| ==>
      after[k].transition == (if Wraps(rotation) then TransformLinear(SPEED) else before[k].transition))
  }

  /** What one update does to every element: its transform shows the updated
      rotation; its transition is enabled if the update wrapped and is
      untouched otherwise. No element is added or removed. */
  lemma UpdateEffect(styles: seq<Style>, rotation: int)
    ensures |Replay(styles, UpdateTrace(rotation, |styles|))| == |styles|
    ensures forall k :: 0 <= k < |styles| ==>
      Replay(styles, UpdateTrace(rotation, |styles|))[k].transform == RotateY(UpdatedRotation(rotation))
    ensures forall k :: 0 <= k < |styles| ==>
      Replay(styles, UpdateTrace(rotation, |styles|))[k].transition
        == (if Wraps(rotation) then TransformLinear(SPEED) else styles[k].transition)
    ensures ShowsUpdate(styles, Replay(styles, UpdateTrace(rotation, |styles|)), rotation)
  {
    var n := |styles|;
    if Wraps(rotation) {
      ResetTraceEffect(styles, n);
      var mid := Replay(styles, ResetTrace(n));
      ReplayAppend(styles, ResetTrace(n), UpdateTrace(START_ROTATION_CYCLE, n));
      assert UpdateTrace(START_ROTATION_CYCLE, n) == RotateTrace(END_ROTATION_CYCLE, n);
      RotateTraceEffect(mid, END_ROTATION_CYCLE, n);
    } else {
      RotateTraceEffect(styles, rotation + FULL_ROTATION_CYCLE, n);
    }
  }

  /** Every write of the wrap loop over `n` elements concerns one of them. */
  lemma {:induction false} ResetTraceIndices(n: nat, k: nat)
    requires n <= k
    ensures WritesTo(ResetTrace(n), k) == []
  {
    if n > 0 {
      ResetTraceIndices(n - 1, k);
      ResetWritesTo(n - 1, k);
      WritesToAppend(ResetTrace(n - 1), ResetWrites(n - 1), k);
    }
  }

  /** The wrap loop writes to element `k` exactly its four reset steps, in order. */
  lemma {:induction false} ResetTraceWritesTo(n: nat, k: nat)
    requires k < n
    ensures WritesTo(ResetTrace(n), k) == ResetWrites(k)
  {
    ResetWritesTo(n - 1, k);
    WritesToAppend(ResetTrace(n - 1), ResetWrites(n - 1), k);
    if k == n - 1 {
      ResetTraceIndices(n - 1, k);
    } else {
      ResetTraceWritesTo(n - 1, k);
    }
  }

  /** The normal loop writes to element `k` exactly one transform. */
  lemma {:induction false} RotateTraceWritesTo(angle: int, n: nat, k: nat)
    ensures WritesTo(RotateTrace(angle, n), k) == if k < n then [WriteTransform(k, RotateY(angle))] else []
  {
    if n > 0 {
      var w := WriteTransform(n - 1, RotateY(angle));
      RotateTraceWritesTo(angle, n - 1, k);
      WritesToAppend(RotateTrace(angle, n - 1), [w], k);
      assert [w][1..] == [];
    }
  }

  /** The order of the writes one update makes to element `k`. Without a
      wrap: a single transform to the advanced rotation. With a wrap: the
      transition is cleared, the transform jumps to the initial rotation,
      the element is flushed, the transition is re-enabled, and then the
      transform moves (with the transition) to the final rotation. */
  lemma ElementWriteOrder(rotation: int, n: nat, k: nat)
    requires k < n
    ensures WritesTo(UpdateTrace(rotation, n), k)
         == if Wraps(rotation) then
              [ WriteTransition(k, Cleared),
                WriteTransform(k, RotateY(START_ROTATION_CYCLE)),
                Flush(k),
                WriteTransition(k, TransformLinear(SPEED)),
                WriteTransform(k, RotateY(END_ROTATION_CYCLE)) ]
            else [WriteTransform(k, RotateY(rotation + FULL_ROTATION_CYCLE))]
  {
    if Wraps(rotation) {
      var last := WriteTransform(k, RotateY(END_ROTATION_CYCLE));
      assert WritesTo(UpdateTrace(rotation, n), k) == ResetWrites(k) + [last] by {
        var reset, rotate := ResetTrace(n), RotateTrace(END_ROTATION_CYCLE, n);
        assert UpdateTrace(rotation, n) == reset + rotate;
        WritesToAppend(reset, rotate, k);
        ResetTraceWritesTo(n, k);
        RotateTraceWritesTo(END_ROTATION_CYCLE, n, k);
      }
      assert ResetWrites(k) + [last]
          == [ WriteTransition(k, Cleared),
               WriteTransform(k, RotateY(START_ROTATION_CYCLE)),
               Flush(k),
               WriteTransition(k, TransformLinear(SPEED)),
               last ];
    } else {
      RotateTraceWritesTo(rotation + FULL_ROTATION_CYCLE, n, k);
    }
  }

  /** The self-call of the wrap branch does not wrap again: an update that
      wraps is exactly the reset loop followed by one normal update to the
      final rotation. */
  lemma WrapRecursesOnce(rotation: int, n: nat)
    requires Wraps(rotation)
    ensures !Wraps(START_ROTATION_CYCLE)
    ensures UpdateTrace(rotation, n) == ResetTrace(n) + RotateTrace(END_ROTATION_CYCLE, n)
  {
  }

  /** From the initial rotation an update reaches the final rotation without
      wrapping; from the final rotation it wraps and comes back to it. */
  lemma BoundaryUpdates()
    ensures !Wraps(START_ROTATION_CYCLE) && UpdatedRotation(START_ROTATION_CYCLE) == END_ROTATION_CYCLE
    ensures Wraps(END_ROTATION_CYCLE) && UpdatedRotation(END_ROTATION_CYCLE) == END_ROTATION_CYCLE
  {
  }

  /** After any update from an in-range rotation the rotator sits at the
      final rotation, so every later update takes the wrap branch and writes
      the same trace. */
  lemma SteadyState(rotation: int, n: nat)
    requires START_ROTATION_CYCLE <= rotation <= END_ROTATION_CYCLE
    ensures Wraps(UpdatedRotation(rotation))
    ensures UpdatedRotation(UpdatedRotation(rotation)) == UpdatedRotation(rotation)
    ensures UpdateTrace(UpdatedRotation(rotation), n) == UpdateTrace(END_ROTATION_CYCLE, n)
  {
  }

  /** With no elements an update writes nothing; only the rotation changes. */
  lemma NoElementsNoWrites(rotation: int)
    ensures UpdateTrace(rotation, 0) == []
  {
  }

  // ---------------------------------------------------------------------------
  // The rotator
  // ---------------------------------------------------------------------------

  /** The Y-axis rotator: the current rotation and the elements it rotates.
      `writes` records, in order, every style write and flush the updates
      have made since the rotator was created. */
  class RotatingY {
    /** The current rotation in degrees. */
    var rotation: int
    /** The elements to be rotated; their collection never changes. */
    const elements: array<Style>
    /** The styles of the elements when the rotator was created. */
    ghost const initialStyles: seq<Style>
    /** Every write made to the elements' styles, in order. */
    ghost var writes: seq<StyleWrite>

    /** The rotation lies in its legal range and the elements show exactly
        what the recorded writes have made of their initial styles. */
    ghost predicate Valid()
      reads this, elements
      ensures Valid() ==> elements.Length == |initialStyles|
    {
      ReplayLength(initialStyles, writes);
      START_ROTATION_CYCLE <= rotation <= END_ROTATION_CYCLE &&
      elements[..] == Replay(initialStyles, writes)
    }

    /** A rotator over the given elements, at the initial rotation, that has
        written nothing yet. */
    constructor (elements: array<Style>)
      ensures this.elements == elements
      ensures rotation == START_ROTATION_CYCLE
      ensures initialStyles == elements[..] && writes == []
      ensures Valid()
    {
      this.elements := elements;
      rotation := START_ROTATION_CYCLE;
      initialStyles := elements[..];
      writes := [];
    }

    /** Advances the rotation by a full cycle and writes it to every element;
        when that overshoots the final rotation, first jumps every element to
        the initial rotation with its transition switched off, then updates
        once more. */
    method Update()
      modifies this, elements
      decreases if Wraps(rotation) then 1 else 0
      ensures rotation == UpdatedRotation(old(rotation))
      ensures writes == old(writes) + UpdateTrace(old(rotation), elements.Length)
      ensures elements[..] == Replay(old(elements[..]), UpdateTrace(old(rotation), elements.Length))
      ensures ShowsUpdate(old(elements[..]), elements[..], old(rotation))
      ensures old(Valid()) ==> Valid() && rotation == END_ROTATION_CYCLE
    {
      ghost var styles0, rotation0, writes0 := elements[..], rotation, writes;
      rotation := rotation + FULL_ROTATION_CYCLE;
      if rotation > END_ROTATION_CYCLE {
        rotation := START_ROTATION_CYCLE;
        JumpToStart();
        ghost var styles1, writes1 := elements[..], writes;
        Update();
        ghost var n := elements.Length;
        ghost var reset, rest := ResetTrace(n), UpdateTrace(START_ROTATION_CYCLE, n);
        assert UpdateTrace(rotation0, n) == reset + rest;
        assert writes == writes0 + (reset + rest) by {
          assert writes == writes1 + rest;
          assert writes1 == writes0 + reset;
        }
        assert elements[..] == Replay(styles0, reset + rest) by {
          assert elements[..] == Replay(styles1, rest);
          assert styles1 == Replay(styles0, reset);
          ReplayAppend(styles0, reset, rest);
        }
      } else {
        RotateElements();
      }
      UpdateEffect(styles0, rotation0);
      if old(Valid()) {
        assert Valid() by {
          ReplayAppend(initialStyles, writes0, UpdateTrace(rotation0, elements.Length));
        }
      }
    }

    /** The wrap branch's loop: every element jumps, without a transition,
        to the current rotation (the initial one), is laid out, and gets its
        transition back. */
    method JumpToStart()
      requires rotation == START_ROTATION_CYCLE
      modifies this`writes, elements
      ensures writes == old(writes) + ResetTrace(elements.Length)
      ensures elements[..] == Replay(old(elements[..]), ResetTrace(elements.Length))
    {
      var i := 0;
      while i < elements.Length
        invariant 0 <= i <= elements.Length
        invariant writes == old(writes) + ResetTrace(i)
        invariant elements[..] == Replay(old(elements[..]), ResetTrace(i))
      {
        ResetElement(i);
        ReplayAppend(old(elements[..]), ResetTrace(i), ResetWrites(i));
        i := i + 1;
      }
    }

    /** One pass of the wrap branch's loop, on the element at `i`: clear its
        transition, jump to the current rotation, flush, re-enable the
        transition, in this order. */
    method ResetElement(i: nat)
      requires i < elements.Length
      requires rotation == START_ROTATION_CYCLE
      modifies this`writes, elements
      ensures writes == old(writes) + ResetWrites(i)
      ensures elements[..] == Replay(old(elements[..]), ResetWrites(i))
    {
      // Switch the transition off so that the jump is not animated.
      SetTransition(i, Cleared);
      SetTransform(i, RotateY(rotation));
      FlushLayout(i);
      // Re-enable the transition.
      SetTransition(i, TransformLinear(SPEED));
      assert elements[..] == old(elements[..])[i := Style(RotateY(START_ROTATION_CYCLE), TransformLinear(SPEED))];
      ResetWritesEffect(old(elements[..]), i);
    }

    /** The normal branch's loop: every element's transform shows the
        current rotation; its transition animates the change. */
    method RotateElements()
      modifies this`writes, elements
      ensures writes == old(writes) + RotateTrace(rotation, elements.Length)
      ensures elements[..] == Replay(old(elements[..]), RotateTrace(rotation, elements.Length))
    {
      var i := 0;
      while i < elements.Length
        invariant 0 <= i <= elements.Length
        invariant writes == old(writes) + RotateTrace(rotation, i)
        invariant elements[..] == Replay(old(elements[..]), RotateTrace(rotation, i))
      {
        ghost var before := elements[..];
        SetTransform(i, RotateY(rotation));
        ReplayAppend(old(elements[..]), RotateTrace(rotation, i), [WriteTransform(i, RotateY(rotation))]);
        ReplayOne(before, WriteTransform(i, RotateY(rotation)));
        i := i + 1;
      }
    }

    /** Sets the `transition` style of the element at `i`, and logs the write. */
    method SetTransition(i: nat, t: Transition)
      requires i < elements.Length
      modifies this`writes, elements
      ensures elements[..] == Apply(old(elements[..]), WriteTransition(i, t))
      ensures writes == old(writes) + [WriteTransition(i, t)]
    {
      elements[i] := elements[i].(transition := t);
      writes := writes + [WriteTransition(i, t)];
    }

    /** Sets the `transform` style of the element at `i`, and logs the write. */
    method SetTransform(i: nat, t: Transform)
      requires i < elements.Length
      modifies this`writes, elements
      ensures elements[..] == Apply(old(elements[..]), WriteTransform(i, t))
      ensures writes == old(writes) + [WriteTransform(i, t)]
    {
      elements[i] := elements[i].(transform := t);
      writes := writes + [WriteTransform(i, t)];
    }

    /** Reads the `offsetHeight` of the element at `i`, which makes the
        browser lay it out; no style changes, and the flush is logged. */
    method FlushLayout(i: nat)
      requires i < elements.Length
      modifies this`writes
      ensures writes == old(writes) + [StyleWrite.Flush(i)]
    {
      writes := writes + [StyleWrite.Flush(i)];
    }
  }
}
