/**
  The `Color` value type of src/color/index.ts: a CIELab triple that is
  validated and clamped once by its constructor and only read afterwards.

  The CIELab clamps and the chain hex string -> RGB -> XYZ -> CIELab used by
  `parse` live in code that is not part of this model; they are the fields
  of a `LabSpace` handed to every operation that uses them.
*/
module Colors {
  import opened Js

  /** A CIELab triple, as handed to a difference formula. */
  datatype Lab = Lab(l: real, a: real, b: real)

  /** `clampL`, `clampA`, `clampB` of CIELabSpace and the hex parsing chain. */
  datatype LabSpace = LabSpace(
    clampL: real -> real,
    clampA: real -> real,
    clampB: real -> real,
    fromHexString: string -> Result<(Number, Number, Number)>)

  /** A constructed colour: the stored, clamped components. */
  datatype Color = Color(l: real, a: real, b: real)

  /**
    `new Color(l, a, b)`: a `TypeError` if any component is not finite, and
    otherwise the components passed through the CIELab clamps.
  */
  function NewColor(space: LabSpace, l: Number, a: Number, b: Number): (r: Result<Color>)
    ensures r.Err? <==> !IsFinite(l) || !IsFinite(a) || !IsFinite(b)
    ensures r.Err? ==> r.error == TypeError
    ensures r.Ok? ==>
      r.value.l == space.clampL(l.value) &&
      r.value.a == space.clampA(a.value) &&
      r.value.b == space.clampB(b.value)
  {
    if !IsFinite(l) || !IsFinite(a) || !IsFinite(b) then Err(TypeError)
    else Ok(Color(space.clampL(l.value), space.clampA(a.value), space.clampB(b.value)))
  }

  /** `isLight`: the lightness is above 50. */
  predicate IsLight(c: Color) {
    c.l > 50.0
  }

  /** `isDark`: the negation of `isLight`. */
  predicate IsDark(c: Color) {
    !IsLight(c)
  }

  /** A lightness of exactly 50 is dark; light and dark split every colour. */
  lemma LightDarkSplit(c: Color)
    ensures IsDark(c) <==> c.l <= 50.0
    ensures IsLight(c) != IsDark(c)
  {
  }

  /** `luminance`: the stored lightness. */
  function Luminance(c: Color): (r: real)
    ensures IsLight(c) <==> r > 50.0
  {
    c.l
  }

  /** `clone`: a new colour from the stored components, which are finite. */
  function Clone(space: LabSpace, c: Color): (r: Result<Color>)
    ensures r.Ok?
    ensures r.value == Color(space.clampL(c.l), space.clampA(c.a), space.clampB(c.b))
  {
    NewColor(space, Finite(c.l), Finite(c.a), Finite(c.b))
  }

  /** Clamping twice is clamping once. */
  ghost predicate Idempotent(f: real -> real) {
    forall x :: f(f(x)) == f(x)
  }

  ghost predicate IdempotentClamps(space: LabSpace) {
    Idempotent(space.clampL) && Idempotent(space.clampA) && Idempotent(space.clampB)
  }

  /** With idempotent clamps, cloning a constructed colour gives the same colour. */
  lemma CloneIsIdentity(space: LabSpace, l: Number, a: Number, b: Number)
    requires IdempotentClamps(space)
    requires NewColor(space, l, a, b).Ok?
    ensures Clone(space, NewColor(space, l, a, b).value) == NewColor(space, l, a, b)
  {
    var c := NewColor(space, l, a, b).value;
    assert space.clampL(space.clampL(l.value)) == space.clampL(l.value);
    assert space.clampA(space.clampA(a.value)) == space.clampA(a.value);
    assert space.clampB(space.clampB(b.value)) == space.clampB(b.value);
  }

  /** The argument of `parse`, an `unknown` value. */
  datatype Value = ColorValue(color: Color) | StringValue(text: string) | OtherValue

  /** `typeof value === 'string' && value.startsWith('#')` */
  predicate IsHexCandidate(v: Value) {
    v.StringValue? && |v.text| > 0 && v.text[0] == '#'
  }

  /**
    `Color.parse`: a colour is cloned, a string starting with `#` goes
    through the hex chain and the constructor, anything else is a
    `TypeError`.
  */
  function Parse(space: LabSpace, v: Value): (r: Result<Color>)
    ensures v.ColorValue? ==> r == Clone(space, v.color)
    ensures !v.ColorValue? && !IsHexCandidate(v) ==> r == Err(TypeError)
    ensures IsHexCandidate(v) && space.fromHexString(v.text).Err? ==> r.Err?
    ensures IsHexCandidate(v) && space.fromHexString(v.text).Ok? ==>
      var lab := space.fromHexString(v.text).value;
      r == NewColor(space, lab.0, lab.1, lab.2)
  {
    match v
    case ColorValue(c) => Clone(space, c)
    case StringValue(s) =>
      if |s| > 0 && s[0] == '#' then
        match space.fromHexString(s)
        case Err(e) => Err(e)
        case Ok(lab) => NewColor(space, lab.0, lab.1, lab.2)
      else Err(TypeError)
    case OtherValue => Err(TypeError)
  }

  /** With idempotent clamps, parsing a constructed colour returns it unchanged. */
  lemma ParseColorIsIdentity(space: LabSpace, l: Number, a: Number, b: Number)
    requires IdempotentClamps(space)
    requires NewColor(space, l, a, b).Ok?
    ensures Parse(space, ColorValue(NewColor(space, l, a, b).value)) == NewColor(space, l, a, b)
  {
    CloneIsIdentity(space, l, a, b);
  }

  /** A parsed hex string is a valid colour whose components are clamped values. */
  lemma ParseHexClamped(space: LabSpace, v: Value)
    requires IsHexCandidate(v) && Parse(space, v).Ok?
    ensures var lab := space.fromHexString(v.text);
      lab.Ok? && Parse(space, v) == NewColor(space, lab.value.0, lab.value.1, lab.value.2)
  {
  }

  /** The components a difference formula sees. */
  function ToLab(c: Color): Lab {
    Lab(c.l, c.a, c.b)
  }

  /**
    `differenceTo(other, formula = cie76)`: the formula applied to this colour
    first and `other` second; `cie76` stands for the default formula.
  */
  function DifferenceTo(c: Color, other: Color, formula: Option<(Lab, Lab) -> real>, cie76: (Lab, Lab) -> real): (r: real)
    ensures formula.None? ==> r == cie76(ToLab(c), ToLab(other))
    ensures formula.Some? ==> r == formula.value(ToLab(c), ToLab(other))
  {
    if formula.Some? then formula.value(ToLab(c), ToLab(other)) else cie76(ToLab(c), ToLab(other))
  }

  /** Swapping the colours swaps the formula's arguments. */
  lemma DifferenceSwapped(c: Color, other: Color, f: (Lab, Lab) -> real, cie76: (Lab, Lab) -> real)
    ensures DifferenceTo(other, c, Some(f), cie76) == f(ToLab(other), ToLab(c))
    ensures (forall x, y :: f(x, y) == f(y, x)) ==>
      DifferenceTo(c, other, Some(f), cie76) == DifferenceTo(other, c, Some(f), cie76)
  {
  }
}
