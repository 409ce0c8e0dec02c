/** The ink pool shared by a pen and its eraser: stroke objects, their names and
    the pool transform that holds them (Pen.cs CreateInkInstance, Clear,
    DestroyJustBeforeInk; Eraser.cs OnTriggerEnter). */
module Inks {
  import opened Seqs

  /** A world-space position sampled by the trail renderer. Only the order of
      the points of a stroke matters to this model. */
  type Point

  datatype Option<T> = None | Some(value: T)

  predicate IsDigit(c: char)
  {
    '0' <= c <= '9'
  }

  function DigitChar(d: nat): (c: char)
    requires d < 10
    ensures IsDigit(c)
  {
    ('0' as int + d) as char
  }

  /** Decimal text of a natural number, no leading zeros. */
  function NatToString(n: nat): (r: string)
    ensures |r| >= 1 && forall i :: 0 <= i < |r| ==> IsDigit(r[i])
    ensures |r| == 1 <==> n < 10
  {
    if n < 10 then [DigitChar(n)] else NatToString(n / 10) + [DigitChar(n % 10)]
  }

  /** C#'s formatting of an `int` in an interpolated string: a minus sign before
      the digits of a negative number. */
  function IntToString(n: int): (r: string)
    ensures |r| >= 1
    ensures r[0] == '-' <==> n < 0
  {
    if n < 0 then "-" + NatToString(-n) else NatToString(n)
  }

  /** The name `$"{inkPrefix} ({inkNo})"` that CreateInkInstance gives a stroke. */
  function InkName(inkPrefix: string, inkNo: int): (r: string)
    ensures StartsWith(r, inkPrefix)
    ensures |r| > |inkPrefix|
  {
    inkPrefix + " (" + IntToString(inkNo) + ")"
  }

  lemma {:induction false} NatToStringInjective(a: nat, b: nat)
    requires NatToString(a) == NatToString(b)
    ensures a == b
  {
    var r := NatToString(a);
    if a >= 10 {
      assert b >= 10;
      assert r == NatToString(a / 10) + [DigitChar(a % 10)];
      assert r == NatToString(b / 10) + [DigitChar(b % 10)];
      assert r[|r| - 1] == DigitChar(a % 10) == DigitChar(b % 10);
      assert r[..|r| - 1] == NatToString(a / 10) == NatToString(b / 10);
      NatToStringInjective(a / 10, b / 10);
    }
  }

  lemma IntToStringInjective(a: int, b: int)
    requires IntToString(a) == IntToString(b)
    ensures a == b
  {
    var r := IntToString(a);
    if a < 0 {
      assert r[1..] == NatToString(-a) == NatToString(-b);
      NatToStringInjective(-a, -b);
    } else {
      NatToStringInjective(a, b);
    }
  }

  /** Two strokes of one pen get the same name exactly when they were created
      with the same counter value. */
  lemma InkNameInjective(inkPrefix: string, a: int, b: int)
    ensures InkName(inkPrefix, a) == InkName(inkPrefix, b) <==> a == b
  {
    if InkName(inkPrefix, a) == InkName(inkPrefix, b) {
      var s := InkName(inkPrefix, a);
      var k := |inkPrefix| + 2;
      assert s[k..|s| - 1] == IntToString(a);
      assert s[k..|s| - 1] == IntToString(b);
      IntToStringInjective(a, b);
    }
  }

  /** One committed stroke: the LineRenderer instance CreateInkInstance makes,
      with the points it was given, the layer of its InkCollider child and its
      parent transform. None of these change after creation. In the eraser's
      view any object that parents a collider is one of these; only its name,
      its identity and its parent matter there. */
  class Ink {
    const name: string
    const points: seq<Point>
    const colliderLayer: int
    const parent: Option<InkPool>

    constructor (name: string, points: seq<Point>, colliderLayer: int, parent: Option<InkPool>)
      ensures this.name == name && this.points == points
      ensures this.colliderLayer == colliderLayer && this.parent == parent
    {
      this.name := name;
      this.points := points;
      this.colliderLayer := colliderLayer;
      this.parent := parent;
    }
  }

  /** The pen's `inkPool` transform: a named container whose children are strokes. */
  class InkPool {
    const name: string
    var inks: seq<Ink>

    ghost predicate Valid()
      reads this
    {
      Distinct(inks)
    }

    constructor (name: string)
      ensures Valid() && this.name == name && inks == []
    {
      this.name := name;
      inks := [];
    }

    /** `transform.SetParent(inkPool)` on a freshly instantiated stroke. */
    method Add(ink: Ink)
      requires Valid() && ink !in inks
      modifies this
      ensures Valid() && inks == old(inks) + [ink]
    {
      inks := inks + [ink];
    }

    /** Unity's `Destroy` on a child object: it leaves the pool, the other
        children keep their order. Destroying an object that is not (or no
        longer) a child changes nothing. */
    method Destroy(ink: Ink)
      requires Valid()
      modifies this
      ensures Valid() && inks == Without(old(inks), ink)
    {
      inks := Without(inks, ink);
    }
  }
}
