/** The floating-logo effect (assets/js/modules/logo-generator.js): logos are
    appended to the shared list and to the `#floatingLogos` layer, and each
    animation frame moves every logo by its speeds and drops those that lack an
    element or have left the viewport. `Math.random` draws, `innerWidth` and
    `innerHeight` are parameters; positions are `real`. */
module LogoGenerator {
  import opened JsBuiltins
  import opened Dom
  import opened SharedState

  /** The keys of `logoTypes`, in declaration order. */
  const LogoTypes: seq<string> := ["vscode", "html", "css", "js"]

  /** The six `Math.random()` draws `generateLogo` makes, in the order it makes them. */
  datatype Draws = Draws(size: real, startX: real, speedX: real, speedY: real, rotation: real, spin: real)

  predicate InUnit(r: real) {
    0.0 <= r < 1.0
  }

  /** What `Math.random` guarantees of each draw. */
  predicate ValidDraws(d: Draws) {
    InUnit(d.size) && InUnit(d.startX) && InUnit(d.speedX) && InUnit(d.speedY) && InUnit(d.rotation) && InUnit(d.spin)
  }

  /** The entry `generateLogo` makes around the new element `e`. */
  function NewLogo(e: ElementId, d: Draws, innerWidth: int, innerHeight: int): Logo {
    var size := 30.0 + d.size * 40.0;
    Logo(Some(e), d.startX * (innerWidth as real - size), innerHeight as real, size,
         Some((d.speedX - 0.5) * 1.5), Some(-(1.5 + d.speedY * 2.0)),
         d.rotation * 360.0, Some((d.spin - 0.5) * 1.5))
  }

  /** A new logo starts on the bottom edge with the element it was made for,
      a size in [30,70), an upward speed in (-3.5,-1.5], sideways and spin
      speeds in [-0.75,0.75), and a start within the viewport's width. */
  lemma NewLogoRanges(e: ElementId, d: Draws, innerWidth: int, innerHeight: int)
    requires ValidDraws(d)
    ensures var l := NewLogo(e, d, innerWidth, innerHeight);
      && l.element == Some(e) && l.y == innerHeight as real
      && 30.0 <= l.size < 70.0
      && l.speedY.Some? && -3.5 < l.speedY.value <= -1.5
      && l.speedX.Some? && -0.75 <= l.speedX.value < 0.75
      && l.rotationSpeed.Some? && -0.75 <= l.rotationSpeed.value < 0.75
      && 0.0 <= l.rotation < 360.0
      && (innerWidth as real >= l.size ==> 0.0 <= l.x <= innerWidth as real - l.size)
  {
    var size := 30.0 + d.size * 40.0;
    assert d.size * 40.0 < 40.0;
    assert d.speedY * 2.0 < 2.0;
    assert d.rotation * 360.0 < 360.0;
    var room := innerWidth as real - size;
    if room >= 0.0 {
      assert d.startX * room <= room by {
        assert (1.0 - d.startX) * room >= 0.0;
      }
      assert d.startX * room >= 0.0;
    }
  }

  // ---------------------------------------------------------------------------
  // One pass of updateLogos over the list
  // ---------------------------------------------------------------------------

  /** `speed || 0`. */
  function SpeedOrZero(speed: Option<real>): real {
    speed.GetOr(0.0)
  }

  /** The logo one frame later: each speed added to its coordinate. */
  function Advance(l: Logo): Logo {
    l.(x := l.x + SpeedOrZero(l.speedX),
       y := l.y + SpeedOrZero(l.speedY),
       rotation := l.rotation + SpeedOrZero(l.rotationSpeed))
  }

  /** Past the top, the left or the right edge by more than 200; there is no bottom test. */
  predicate OutOfBounds(l: Logo, innerWidth: int) {
    l.y < -200.0 || l.x < -200.0 || l.x > innerWidth as real + 200.0
  }

  /** The entry stays in the list after a pass. */
  predicate Survives(l: Logo, innerWidth: int) {
    l.element.Some? && !OutOfBounds(Advance(l), innerWidth)
  }

  /** What a pass leaves of one entry. */
  function Kept(l: Logo, innerWidth: int): seq<Logo> {
    if Survives(l, innerWidth) then [Advance(l)] else []
  }

  /** The list after one pass: the advanced survivors, in their old order. */
  function Pass(logos: seq<Logo>, innerWidth: int): seq<Logo> {
    if logos == [] then [] else Kept(logos[0], innerWidth) + Pass(logos[1..], innerWidth)
  }

  /** The elements a pass takes off the page: those of entries that move out of bounds. */
  function Leaving(logos: seq<Logo>, innerWidth: int): set<ElementId> {
    if logos == [] then {}
    else
      var l := logos[0];
      (if l.element.Some? && OutOfBounds(Advance(l), innerWidth) then {l.element.value} else {})
        + Leaving(logos[1..], innerWidth)
  }

  /** A pass distributes over concatenation, so survivors keep their relative order. */
  lemma {:induction false} PassAppend(s: seq<Logo>, t: seq<Logo>, innerWidth: int)
    ensures Pass(s + t, innerWidth) == Pass(s, innerWidth) + Pass(t, innerWidth)
  {
    if s == [] {
      assert s + t == t;
    } else {
      assert (s + t)[1..] == s[1..] + t;
      PassAppend(s[1..], t, innerWidth);
    }
  }

  /** Every entry of the new list is a surviving old entry moved by one step, and
      every surviving old entry is there. */
  lemma {:induction false} PassMembers(logos: seq<Logo>, innerWidth: int)
    ensures forall m :: m in Pass(logos, innerWidth) ==>
              exists i :: 0 <= i < |logos| && Survives(logos[i], innerWidth) && m == Advance(logos[i])
    ensures forall i :: 0 <= i < |logos| && Survives(logos[i], innerWidth) ==>
              Advance(logos[i]) in Pass(logos, innerWidth)
    ensures |Pass(logos, innerWidth)| <= |logos|
  {
    if logos != [] {
      PassMembers(logos[1..], innerWidth);
      var rest := Pass(logos[1..], innerWidth);
      forall m | m in Pass(logos, innerWidth)
        ensures exists i :: 0 <= i < |logos| && Survives(logos[i], innerWidth) && m == Advance(logos[i])
      {
        if m in Kept(logos[0], innerWidth) {
          assert Survives(logos[0], innerWidth) && m == Advance(logos[0]);
        } else {
          assert m in rest;
          var j :| 0 <= j < |logos[1..]| && Survives(logos[1..][j], innerWidth) && m == Advance(logos[1..][j]);
          assert logos[1..][j] == logos[j + 1];
        }
      }
      forall i | 0 <= i < |logos| && Survives(logos[i], innerWidth)
        ensures Advance(logos[i]) in Pass(logos, innerWidth)
      {
        if i > 0 {
          assert logos[1..][i - 1] == logos[i];
        }
      }
    }
  }

  /** Nothing below the viewport is ever dropped: a logo that keeps its element
      and stays within the side margins survives however far down it is. */
  lemma NoBottomEdge(l: Logo, innerWidth: int)
    requires l.element.Some?
    requires -200.0 <= Advance(l).y
    requires -200.0 <= Advance(l).x <= innerWidth as real + 200.0
    ensures Pass([l], innerWidth) == [Advance(l)]
  {
  }

  // ---------------------------------------------------------------------------
  // The list and the #floatingLogos layer stay in step
  // ---------------------------------------------------------------------------

  /** The elements of the entries that have one, in list order. */
  function Elements(logos: seq<Logo>): seq<ElementId> {
    if logos == [] then []
    else (if logos[0].element.Some? then [logos[0].element.value] else []) + Elements(logos[1..])
  }

  /** One entry per child of the layer, in the same order, every entry with an
      element and no element twice. */
  predicate Mirrors(logos: seq<Logo>, layer: seq<ElementId>) {
    && (forall i :: 0 <= i < |logos| ==> logos[i].element.Some?)
    && layer == Elements(logos)
    && Distinct(layer)
  }

  lemma {:induction false} ElementsAppend(s: seq<Logo>, t: seq<Logo>)
    ensures Elements(s + t) == Elements(s) + Elements(t)
  {
    if s == [] {
      assert s + t == t;
    } else {
      assert (s + t)[1..] == s[1..] + t;
      ElementsAppend(s[1..], t);
    }
  }

  lemma {:induction false} LeavingWithin(logos: seq<Logo>, innerWidth: int, x: ElementId)
    requires x in Leaving(logos, innerWidth)
    ensures x in Elements(logos)
  {
    if logos != [] && !(logos[0].element.Some? && x == logos[0].element.value) {
      LeavingWithin(logos[1..], innerWidth, x);
    }
  }

  /** A pass keeps the list and the layer in step, provided each leaving element
      is taken out of the layer. */
  lemma PassKeepsMirror(logos: seq<Logo>, layer: seq<ElementId>, innerWidth: int)
    requires Mirrors(logos, layer)
    ensures Mirrors(Pass(logos, innerWidth), Without(layer, Leaving(logos, innerWidth)))
  {
    PassElements(logos, innerWidth);
    WithoutDistinct(layer, Leaving(logos, innerWidth));
    PassMembers(logos, innerWidth);
    var out := Pass(logos, innerWidth);
    forall i | 0 <= i < |out| ensures out[i].element.Some? {
      assert out[i] in out;
    }
  }

  /** The elements left after a pass are the old ones less those leaving. */
  lemma {:induction false} PassElements(logos: seq<Logo>, innerWidth: int)
    requires forall i :: 0 <= i < |logos| ==> logos[i].element.Some?
    requires Distinct(Elements(logos))
    ensures Elements(Pass(logos, innerWidth)) == Without(Elements(logos), Leaving(logos, innerWidth))
  {
    if logos != [] {
      var l, rest := logos[0], logos[1..];
      var e := l.element.value;
      var layer := Elements(logos);
      assert layer == [e] + Elements(rest);
      assert layer[1..] == Elements(rest);
      assert Distinct(Elements(rest)) by {
        forall i, j | 0 <= i < j < |Elements(rest)| ensures Elements(rest)[i] != Elements(rest)[j] {
          assert Elements(rest)[i] == layer[i + 1] && Elements(rest)[j] == layer[j + 1];
        }
      }
      assert forall i :: 0 <= i < |rest| ==> rest[i].element.Some? by {
        forall i | 0 <= i < |rest| ensures rest[i].element.Some? {
          assert rest[i] == logos[i + 1];
        }
      }
      PassElements(rest, innerWidth);
      var goneRest := Leaving(rest, innerWidth);
      assert e !in Elements(rest) by {
        forall j | 0 <= j < |Elements(rest)| ensures Elements(rest)[j] != e {
          assert Elements(rest)[j] == layer[j + 1] && layer[0] == e;
        }
      }
      assert e !in goneRest by {
        if e in goneRest {
          LeavingWithin(rest, innerWidth, e);
        }
      }
      ElementsAppend(Kept(l, innerWidth), Pass(rest, innerWidth));
      if OutOfBounds(Advance(l), innerWidth) {
        assert Leaving(logos, innerWidth) == goneRest + {e};
        WithoutIgnoresAbsent(Elements(rest), goneRest, e);
      } else {
        assert Leaving(logos, innerWidth) == goneRest;
        assert Elements(Kept(l, innerWidth)) == [e];
      }
    }
  }

  // ---------------------------------------------------------------------------
  // The operations
  // ---------------------------------------------------------------------------

  /** What `#logoCount` shows: the list's length, or 0 while it is not an array. */
  function Shown(logos: Option<seq<Logo>>): nat {
    if logos.Some? then |logos.value| else 0
  }

  /** Logos are in step with their layer, and every element was made before `nextId`. */
  ghost predicate Consistent(st: AppState, doc: Document)
    reads st, doc
  {
    && Mirrors(st.floatingLogos.GetOr([]), doc.logoLayer)
    && forall i :: 0 <= i < |doc.logoLayer| ==> doc.logoLayer[i] < doc.nextId
  }

  /** The module's first run: a list that is not an array becomes empty. */
  method Load(st: AppState)
    modifies st`floatingLogos
    ensures st.floatingLogos == if old(st.floatingLogos).None? then Some([]) else old(st.floatingLogos)
  {
    if st.floatingLogos.None? {
      st.floatingLogos := Some([]);
    }
  }

  method UpdateLogoCount(st: AppState, doc: Document)
    modifies doc`logoCount
    ensures doc.logoCount == if doc.hasLogoCount then Shown(st.floatingLogos) else old(doc.logoCount)
  {
    if doc.hasLogoCount {
      doc.logoCount := Shown(st.floatingLogos);
    }
  }

  method ResizeCanvas(doc: Document, parent: Option<(int, int)>)
    modifies doc`canvasWidth, doc`canvasHeight
    ensures doc.hasCanvas && parent.Some? ==>
              && doc.canvasWidth == (if parent.value.0 > 0 then parent.value.0 else 1200)
              && doc.canvasHeight == (if parent.value.1 > 0 then parent.value.1 else 400)
    ensures !doc.hasCanvas || parent.None? ==>
              doc.canvasWidth == old(doc.canvasWidth) && doc.canvasHeight == old(doc.canvasHeight)
    ensures doc.hasCanvas && parent.Some? ==> doc.canvasWidth > 0 && doc.canvasHeight > 0
  {
    if !doc.hasCanvas {
      return;
    }
    if parent.None? {
      return;
    }
    var (width, height) := parent.value;
    doc.canvasWidth := if width > 0 then width else 1200;
    doc.canvasHeight := if height > 0 then height else 400;
  }

  method GenerateLogo(st: AppState, doc: Document, kind: string, d: Draws, innerWidth: int, innerHeight: int)
    modifies st`floatingLogos, doc`logoLayer, doc`nextId, doc`logoCount
    ensures kind !in LogoTypes || !doc.hasLogoLayer ==>
              && st.floatingLogos == old(st.floatingLogos) && doc.logoLayer == old(doc.logoLayer)
              && doc.nextId == old(doc.nextId) && doc.logoCount == old(doc.logoCount)
    ensures kind in LogoTypes && doc.hasLogoLayer ==>
              && doc.nextId == old(doc.nextId) + 1
              && doc.logoLayer == old(doc.logoLayer) + [old(doc.nextId)]
              && st.floatingLogos == Some(old(st.floatingLogos).GetOr([]) + [NewLogo(old(doc.nextId), d, innerWidth, innerHeight)])
              && doc.logoCount == (if doc.hasLogoCount then Shown(st.floatingLogos) else old(doc.logoCount))
    ensures old(Consistent(st, doc)) ==> Consistent(st, doc)
  {
    if kind !in LogoTypes {
      return;
    }
    if !doc.hasLogoLayer {
      return;
    }
    var e := doc.nextId;
    doc.nextId := doc.nextId + 1;
    var logo := NewLogo(e, d, innerWidth, innerHeight);
    doc.logoLayer := doc.logoLayer + [e];
    if st.floatingLogos.None? {
      st.floatingLogos := Some([]);
    }
    ghost var before := st.floatingLogos.value;
    st.floatingLogos := Some(st.floatingLogos.value + [logo]);
    UpdateLogoCount(st, doc);
    MirrorsAppend(before, old(doc.logoLayer), logo, e);
  }

  /** A new logo around a fresh element keeps the list and the layer in step. */
  lemma MirrorsAppend(logos: seq<Logo>, layer: seq<ElementId>, logo: Logo, e: ElementId)
    requires logo.element == Some(e)
    ensures Mirrors(logos, layer) && e !in layer ==> Mirrors(logos + [logo], layer + [e])
  {
    ElementsAppend(logos, [logo]);
    assert Elements([logo]) == [e];
  }

  method ClearAll(st: AppState, doc: Document)
    modifies st`floatingLogos, doc`logoLayer, doc`logoCount
    ensures doc.logoLayer == if doc.hasLogoLayer then [] else old(doc.logoLayer)
    ensures st.floatingLogos == if old(st.floatingLogos).Some? then Some([]) else None
    ensures Shown(st.floatingLogos) == 0
    ensures doc.hasLogoCount ==> doc.logoCount == 0
    ensures !doc.hasLogoCount ==> doc.logoCount == old(doc.logoCount)
    ensures doc.hasLogoLayer && old(Consistent(st, doc)) ==> Consistent(st, doc)
  {
    if doc.hasLogoLayer {
      doc.logoLayer := [];
    }
    if st.floatingLogos.Some? {
      st.floatingLogos := Some([]);
    }
    UpdateLogoCount(st, doc);
  }

  /** The body of `updateLogos` once the list is known to be an array. */
  method UpdateLogos(st: AppState, doc: Document, innerWidth: int)
    modifies st`floatingLogos, doc`logoLayer, doc`logoCount
    ensures old(st.floatingLogos).None? ==>
              && st.floatingLogos == Some([])
              && doc.logoLayer == old(doc.logoLayer) && doc.logoCount == old(doc.logoCount)
    ensures old(st.floatingLogos).Some? ==>
              && st.floatingLogos == Some(Pass(old(st.floatingLogos).value, innerWidth))
              && doc.logoLayer == Without(old(doc.logoLayer), Leaving(old(st.floatingLogos).value, innerWidth))
              && doc.logoCount == (if doc.hasLogoCount then Shown(st.floatingLogos) else old(doc.logoCount))
    ensures old(Consistent(st, doc)) ==> Consistent(st, doc)
  {
    if st.floatingLogos.None? {
      st.floatingLogos := Some([]);
      return;
    }
    ghost var layer0 := doc.logoLayer;
    ghost var wasConsistent := Consistent(st, doc);
    var logos := SweepLogos(doc, st.floatingLogos.value, innerWidth);
    if wasConsistent {
      PassKeepsMirror(st.floatingLogos.value, layer0, innerWidth);
      WithoutKeepsBound(layer0, Leaving(st.floatingLogos.value, innerWidth), doc.nextId);
    }
    st.floatingLogos := Some(logos);
    UpdateLogoCount(st, doc);
  }

  /** The loop of `updateLogos`: from the last entry to the first, each entry
      without an element is spliced out; any other is moved, and spliced out
      with its element taken off the page when it has left the viewport. */
  method SweepLogos(doc: Document, orig: seq<Logo>, innerWidth: int) returns (logos: seq<Logo>)
    modifies doc`logoLayer
    ensures logos == Pass(orig, innerWidth)
    ensures doc.logoLayer == Without(old(doc.logoLayer), Leaving(orig, innerWidth))
  {
    ghost var layer0 := doc.logoLayer;
    logos := orig;
    var i := |logos|;
    assert orig[i..] == [] && Pass(orig[i..], innerWidth) == [];
    assert logos == orig[..i] + Pass(orig[i..], innerWidth);
    WithoutNothing(layer0);
    while i > 0
      invariant 0 <= i <= |orig|
      invariant logos == orig[..i] + Pass(orig[i..], innerWidth)
      invariant doc.logoLayer == Without(layer0, Leaving(orig[i..], innerWidth))
    {
      i := i - 1;
      ListStep(orig, i, innerWidth, logos);
      var logo := logos[i];
      if logo.element.None? {
        LayerStepStay(orig, i, innerWidth);
        logos := logos[..i] + logos[i + 1..];
      } else {
        var moved := Advance(logo);
        logos := logos[i := moved];
        if OutOfBounds(moved, innerWidth) {
          var e := logo.element.value;
          LayerStepOut(layer0, orig, i, innerWidth);
          if e in doc.logoLayer {
            doc.logoLayer := Without(doc.logoLayer, {e});
          } else {
            WithoutAbsent(doc.logoLayer, e);
          }
          logos := logos[..i] + logos[i + 1..];
        } else {
          LayerStepStay(orig, i, innerWidth);
        }
      }
    }
    assert orig[..0] == [] && orig[0..] == orig;
  }

  /** One step of the loop on the list: with the entries after `i` done, the
      entry at `i` is dropped, or overwritten by its moved self and then
      possibly dropped. */
  lemma ListStep(orig: seq<Logo>, i: int, innerWidth: int, logos: seq<Logo>)
    requires 0 <= i < |orig|
    requires logos == orig[..i + 1] + Pass(orig[i + 1..], innerWidth)
    ensures i < |logos| && logos[i] == orig[i]
    ensures var l := orig[i];
      l.element.None? ==> logos[..i] + logos[i + 1..] == orig[..i] + Pass(orig[i..], innerWidth)
    ensures var l := orig[i]; var m := Advance(l); var moved := logos[i := m];
      l.element.Some? ==>
        if OutOfBounds(m, innerWidth) then moved[..i] + moved[i + 1..] == orig[..i] + Pass(orig[i..], innerWidth)
        else moved == orig[..i] + Pass(orig[i..], innerWidth)
  {
    var rest := Pass(orig[i + 1..], innerWidth);
    assert orig[i..][1..] == orig[i + 1..];
    assert Pass(orig[i..], innerWidth) == Kept(orig[i], innerWidth) + rest;
    assert orig[..i + 1] == orig[..i] + [orig[i]];
    SpliceAt(orig[..i], orig[i], rest);
    var l := orig[i];
    var m := Advance(l);
    SpliceAt(orig[..i], m, rest);
    if l.element.None? || OutOfBounds(m, innerWidth) {
      assert Kept(l, innerWidth) == [];
      assert Pass(orig[i..], innerWidth) == rest;
    } else {
      assert Kept(l, innerWidth) == [m];
      assert orig[..i] + [m] + rest == orig[..i] + ([m] + rest);
    }
  }

  /** A pass takes the element of an entry that moves out of bounds off the
      layer, on top of what it takes for the entries after it. */
  lemma LayerStepOut(layer0: seq<ElementId>, orig: seq<Logo>, i: int, innerWidth: int)
    requires 0 <= i < |orig|
    requires orig[i].element.Some? && OutOfBounds(Advance(orig[i]), innerWidth)
    ensures Without(layer0, Leaving(orig[i..], innerWidth)) ==
              Without(Without(layer0, Leaving(orig[i + 1..], innerWidth)), {orig[i].element.value})
  {
    assert orig[i..][1..] == orig[i + 1..];
    var e := orig[i].element.value;
    assert Leaving(orig[i..], innerWidth) == Leaving(orig[i + 1..], innerWidth) + {e};
    WithoutOneMore(layer0, Leaving(orig[i + 1..], innerWidth), e);
  }

  /** Any other entry takes nothing more off the layer. */
  lemma LayerStepStay(orig: seq<Logo>, i: int, innerWidth: int)
    requires 0 <= i < |orig|
    requires !(orig[i].element.Some? && OutOfBounds(Advance(orig[i]), innerWidth))
    ensures Leaving(orig[i..], innerWidth) == Leaving(orig[i + 1..], innerWidth)
  {
    assert orig[i..][1..] == orig[i + 1..];
  }

  /** Overwriting, and splicing out, the element just after a prefix. */
  lemma SpliceAt<T>(a: seq<T>, x: T, b: seq<T>)
    ensures (a + [x] + b)[|a|] == x
    ensures (a + [x] + b)[..|a|] + (a + [x] + b)[|a| + 1..] == a + b
    ensures forall y :: (a + [x] + b)[|a| := y] == a + [y] + b
  {
    var s := a + [x] + b;
    assert s[..|a|] == a && s[|a| + 1..] == b;
  }

  /** One call of `animate`: the pass runs unless the animation is paused. */
  method AnimateFrame(st: AppState, doc: Document, innerWidth: int)
    modifies st`floatingLogos, doc`logoLayer, doc`logoCount
    ensures st.isLogoAnimationPaused ==>
              && st.floatingLogos == old(st.floatingLogos)
              && doc.logoLayer == old(doc.logoLayer) && doc.logoCount == old(doc.logoCount)
    ensures !st.isLogoAnimationPaused && old(st.floatingLogos).None? ==>
              && st.floatingLogos == Some([])
              && doc.logoLayer == old(doc.logoLayer) && doc.logoCount == old(doc.logoCount)
    ensures !st.isLogoAnimationPaused && old(st.floatingLogos).Some? ==>
              && st.floatingLogos == Some(Pass(old(st.floatingLogos).value, innerWidth))
              && doc.logoLayer == Without(old(doc.logoLayer), Leaving(old(st.floatingLogos).value, innerWidth))
              && doc.logoCount == (if doc.hasLogoCount then Shown(st.floatingLogos) else old(doc.logoCount))
    ensures old(Consistent(st, doc)) ==> Consistent(st, doc)
  {
    if !st.isLogoAnimationPaused {
      UpdateLogos(st, doc, innerWidth);
    }
  }

  /** The type `random` asks for: `types[Math.floor(pick * types.length)]`. For a
      draw in [0,1) it is a logo type, each type taking a quarter of the range. */
  function RandomKind(pick: real): (kind: string)
    ensures InUnit(pick) ==> kind in LogoTypes
    ensures forall k :: 0 <= k < |LogoTypes| && k as real <= pick * 4.0 < (k + 1) as real ==> kind == LogoTypes[k]
  {
    var k := (pick * (|LogoTypes| as real)).Floor;
    if 0 <= k < |LogoTypes| then LogoTypes[k] else "undefined"
  }

  /** The type a click asks `generateLogo` for, if any. */
  function Requested(action: string, pick: real): Option<string> {
    if action in LogoTypes then Some(action)
    else if action == "random" then Some(RandomKind(pick))
    else None
  }

  /** A click on one of the logo buttons. `pick` is the draw `random` makes
      before `generateLogo` makes its own. */
  method HandleAction(st: AppState, doc: Document, action: string, pick: real, d: Draws,
                      innerWidth: int, innerHeight: int)
    modifies st`floatingLogos, st`isLogoAnimationPaused, doc`logoLayer, doc`nextId, doc`logoCount
    ensures action == "pause" ==> st.isLogoAnimationPaused
    ensures action == "resume" ==> !st.isLogoAnimationPaused
    ensures action != "pause" && action != "resume" ==> st.isLogoAnimationPaused == old(st.isLogoAnimationPaused)
    ensures action == "clear" ==>
              && doc.logoLayer == (if doc.hasLogoLayer then [] else old(doc.logoLayer))
              && st.floatingLogos == (if old(st.floatingLogos).Some? then Some([]) else None)
              && Shown(st.floatingLogos) == 0
              && doc.logoCount == (if doc.hasLogoCount then 0 else old(doc.logoCount))
              && doc.nextId == old(doc.nextId)
    ensures var kind := Requested(action, pick);
      kind.Some? && kind.value in LogoTypes && doc.hasLogoLayer ==>
        && doc.nextId == old(doc.nextId) + 1
        && doc.logoLayer == old(doc.logoLayer) + [old(doc.nextId)]
        && st.floatingLogos == Some(old(st.floatingLogos).GetOr([]) + [NewLogo(old(doc.nextId), d, innerWidth, innerHeight)])
        && doc.logoCount == (if doc.hasLogoCount then Shown(st.floatingLogos) else old(doc.logoCount))
    ensures var kind := Requested(action, pick);
      action != "clear" && !(kind.Some? && kind.value in LogoTypes && doc.hasLogoLayer) ==>
        && st.floatingLogos == old(st.floatingLogos) && doc.logoLayer == old(doc.logoLayer)
        && doc.nextId == old(doc.nextId) && doc.logoCount == old(doc.logoCount)
    ensures doc.hasLogoLayer && old(Consistent(st, doc)) ==> Consistent(st, doc)
  {
    if action in LogoTypes {
      GenerateLogo(st, doc, action, d, innerWidth, innerHeight);
    } else if action == "random" {
      var randomType := RandomKind(pick);
      GenerateLogo(st, doc, randomType, d, innerWidth, innerHeight);
    } else if action == "clear" {
      ClearAll(st, doc);
    } else if action == "pause" {
      st.isLogoAnimationPaused := true;
    } else if action == "resume" {
      st.isLogoAnimationPaused := false;
    }
  }
}
