/** The eraser attached to a pen (UdonScript/Eraser.cs): an erase flag, the
    material that shows it, and the rule by which a trigger contact destroys a
    stroke. */
module Erasers {
  import opened Seqs
  import opened Inks

  /** The two materials the eraser's renderer switches between. */
  datatype Material = Normal | Erasing

  /** What `OnTriggerEnter` is handed: the layer of the collider's game object
      and the object its transform is parented to, if any. The grandparent is
      that object's own parent. */
  datatype Collider = Collider(layer: int, parent: Option<Ink>)

  /** The collider's grandparent transform, if it has one. */
  function Grandparent(other: Collider): Option<InkPool>
  {
    if other.parent.Some? then other.parent.value.parent else None
  }

  /** The five conditions under which a trigger contact destroys the collider's
      parent: erasing is on, the collider is on the ink layer, its parent's name
      begins with the ink prefix, and its grandparent is named exactly as the
      ink pool. */
  predicate Accepts(isErasing: bool, inkLayer: int, inkPrefix: string, inkPoolName: string, other: Collider)
    ensures Accepts(isErasing, inkLayer, inkPrefix, inkPoolName, other) ==>
              && isErasing
              && Grandparent(other).Some? && Touched(other) == {Grandparent(other).value}
              && Grandparent(other).value.name == inkPoolName
  {
    && isErasing
    && other.layer == inkLayer
    && other.parent.Some?
    && StartsWith(other.parent.value.name, inkPrefix)
    && other.parent.value.parent.Some?
    && other.parent.value.parent.value.name == inkPoolName
  }

  /** The set of pools a trigger contact may change: the collider's grandparent. */
  function Touched(other: Collider): set<InkPool>
  {
    if Grandparent(other).Some? then {Grandparent(other).value} else {}
  }

  /** While erasing is off, no contact is accepted, whatever it touches. */
  lemma NotErasingNeverAccepts(inkLayer: int, inkPrefix: string, inkPoolName: string, other: Collider)
    ensures !Accepts(false, inkLayer, inkPrefix, inkPoolName, other)
  {
  }

  /** Names are matched asymmetrically: any stroke name that merely begins with
      the prefix is accepted, but a grandparent whose name only begins with the
      pool name is refused. */
  lemma PrefixVersusExactName(inkLayer: int, poolName: string, stroke: Ink, pool: InkPool, lookalike: InkPool, other: Ink)
    requires pool.name == poolName && lookalike.name == poolName + "x"
    requires stroke.name == "Ink (3)" && stroke.parent == Some(pool)
    requires other.name == "Ink (3)" && other.parent == Some(lookalike)
    ensures Accepts(true, inkLayer, "Ink", poolName, Collider(inkLayer, Some(stroke)))
    ensures StartsWith(lookalike.name, poolName)
    ensures !Accepts(true, inkLayer, "Ink", poolName, Collider(inkLayer, Some(other)))
  {
  }

  /** Every stroke a pen creates can be erased: its name starts with the pen's
      ink prefix, its collider is on the ink layer and it sits in the pen's pool. */
  lemma PenStrokesAreErasable(inkLayer: int, inkPrefix: string, inkNo: int, pool: InkPool, stroke: Ink)
    requires stroke.name == InkName(inkPrefix, inkNo) && stroke.colliderLayer == inkLayer
    requires stroke.parent == Some(pool)
    ensures Accepts(true, inkLayer, inkPrefix, pool.name, Collider(stroke.colliderLayer, Some(stroke)))
  {
  }

  class Eraser {
    const inkLayer: int
    const inkPrefix: string
    const inkPoolName: string

    var isErasing: bool
    /** `renderer.sharedMaterial`. */
    var material: Material
    /** `gameObject.activeSelf`, switched by the pen that carries the eraser. */
    var active: bool

    /** `Init(null, settings)`, as a pen does it: the settings' ink layer, ink
        prefix and pool name, and the `normal` material, since the eraser has
        no manager of its own. */
    constructor (inkLayer: int, inkPrefix: string, inkPoolName: string)
      ensures this.inkLayer == inkLayer && this.inkPrefix == inkPrefix && this.inkPoolName == inkPoolName
      ensures !isErasing && material == Normal && active
    {
      this.inkLayer := inkLayer;
      this.inkPrefix := inkPrefix;
      this.inkPoolName := inkPoolName;
      isErasing := false;
      material := Normal;
      active := true;
    }

    method OnPickupEvent()
      modifies this`material
      ensures material == Normal
    {
      material := Normal;
    }

    method OnDropEvent()
      modifies this`material
      ensures material == Erasing
    {
      material := Erasing;
    }

    method StartErasing()
      modifies this`isErasing, this`material
      ensures isErasing && material == Erasing
    {
      isErasing := true;
      material := Erasing;
    }

    method FinishErasing()
      modifies this`isErasing, this`material
      ensures !isErasing && material == Normal
    {
      isErasing := false;
      material := Normal;
    }

    /** `gameObject.SetActive(value)`. */
    method SetActive(value: bool)
      modifies this`active
      ensures active == value
    {
      active := value;
    }

    /** A trigger contact: when `Accepts` holds, the collider's parent is
        destroyed, which takes it out of its grandparent's children; otherwise
        nothing changes. */
    method OnTriggerEnter(other: Collider)
      requires forall pool <- Touched(other) :: pool.Valid()
      modifies Touched(other)
      ensures forall pool <- Touched(other) :: pool.Valid()
      ensures Accepts(isErasing, inkLayer, inkPrefix, inkPoolName, other) ==>
                var pool := Grandparent(other).value;
                pool.inks == Without(old(pool.inks), other.parent.value)
      ensures !Accepts(isErasing, inkLayer, inkPrefix, inkPoolName, other) ==>
                forall pool <- Touched(other) :: pool.inks == old(pool.inks)
    {
      if Accepts(isErasing, inkLayer, inkPrefix, inkPoolName, other) {
        var pool := other.parent.value.parent.value;
        pool.Destroy(other.parent.value);
      }
    }
  }
}
