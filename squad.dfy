/** The player's squad: an ordered list of soldiers, the first of which is
    the main one, and the point they follow. Each soldier is numbered by its
    place in the list and coloured round a fixed six-colour palette. */
module Squads {
  import opened Geometry

  /** What the squad gives each PlayerSoldier it creates: where it starts,
      its colour, whether it is the main soldier and its index in the list.
      The soldier's own movement is not part of this model, so its position
      is the one it was created with. */
  datatype Soldier = Soldier(position: Vec, color: Color, isMain: bool, index: int)

  /** Blue (main), green, orange, purple, yellow, turquoise. */
  const Palette: seq<Color> := [
    Color(0, 150, 255), Color(0, 200, 100), Color(255, 100, 0),
    Color(200, 0, 200), Color(255, 200, 0), Color(100, 255, 200)
  ]

  /** Every soldier carries its own place in the list as its index and the
      palette colour of that place. */
  predicate Numbered(soldiers: seq<Soldier>)
  {
    forall k :: 0 <= k < |soldiers| ==>
      soldiers[k].index == k && soldiers[k].color == Palette[k % |Palette|]
  }

  /** The soldier `addSoldier` creates in a squad of `size` soldiers. */
  function Recruit(x: real, y: real, isMain: bool, size: nat): Soldier
  {
    Soldier(Vec(x, y), Palette[size % |Palette|], isMain, size)
  }

  /** Appending a recruit keeps the numbering: the new soldier's index is
      the old size and its colour the palette entry of that size. */
  lemma RecruitKeepsNumbering(soldiers: seq<Soldier>, x: real, y: real, isMain: bool)
    requires Numbered(soldiers)
    ensures Numbered(soldiers + [Recruit(x, y, isMain, |soldiers|)])
  {
  }

  /** Soldiers six places apart wear the same colour. */
  lemma ColorsRepeat(soldiers: seq<Soldier>, k: nat)
    requires Numbered(soldiers) && k + |Palette| < |soldiers|
    ensures soldiers[k].color == soldiers[k + |Palette|].color
  {
    assert (k + |Palette|) % |Palette| == k % |Palette|;
  }

  class Squad {
    var soldiers: seq<Soldier>
    var targetPosition: Vec

    /** A squad always has its main soldier first and numbered soldiers. */
    ghost predicate Valid()
      reads this
    {
      soldiers != [] && soldiers[0].isMain && Numbered(soldiers)
    }

    /** A new squad holds only its main soldier at the start point, which is
        also the first target. */
    constructor (startX: real, startY: real)
      ensures Valid()
      ensures soldiers == [Soldier(Vec(startX, startY), Palette[0], true, 0)]
      ensures targetPosition == Vec(startX, startY)
    {
      soldiers := [];
      targetPosition := Vec(startX, startY);
      new;
      AddSoldier(startX, startY, true);
    }

    /** Appends one soldier numbered and coloured after the current size;
        the soldiers already there and the target stay as they were. */
    method AddSoldier(x: real, y: real, isMain: bool)
      requires Numbered(soldiers)
      modifies this
      ensures soldiers == old(soldiers) + [Recruit(x, y, isMain, |old(soldiers)|)]
      ensures Numbered(soldiers)
      ensures old(Valid()) ==> Valid()
      ensures old(soldiers) != [] ==> GetMainPosition() == old(GetMainPosition())
      ensures targetPosition == old(targetPosition)
    {
      RecruitKeepsNumbering(soldiers, x, y, isMain);
      var color := Palette[|soldiers| % |Palette|];
      soldiers := soldiers + [Soldier(Vec(x, y), color, isMain, |soldiers|)];
    }

    /** Moves the point the squad follows and nothing else. */
    method SetTargetPosition(x: real, y: real)
      modifies this
      ensures targetPosition == Vec(x, y)
      ensures soldiers == old(soldiers)
    {
      targetPosition := Vec(x, y);
    }

    /** The main soldier's position, or the origin for an empty list. */
    function GetMainPosition(): (p: Vec)
      reads this
      ensures soldiers != [] ==> p == soldiers[0].position
      ensures soldiers == [] ==> p == Vec(0.0, 0.0)
    {
      if soldiers != [] then soldiers[0].position else Vec(0.0, 0.0)
    }

    function GetSize(): (n: nat)
      reads this
      requires Valid()
      ensures n == |soldiers| && n >= 1
    {
      |soldiers|
    }
  }
}
