/**
 * The orientation algebra of a die (cube.py): six world-facing labels, the
 * right-handed table that derives the third axis from the first two, the
 * quarter-turn roll in each grid direction, and the enumeration of the 24
 * legal orientations used for encoding.
 */
module Cube {
  import opened Results

  // ---------- geometry ----------

  datatype Direction = Up | Right | Down | Left

  /** The grid step of a direction, as (column, row) offsets. */
  function Delta(d: Direction): (r: (int, int))
    ensures (r.0 == 0) != (r.1 == 0)
    ensures -1 <= r.0 <= 1 && -1 <= r.1 <= 1
  {
    match d
    case Up => (0, -1)
    case Down => (0, 1)
    case Left => (-1, 0)
    case Right => (1, 0)
  }

  /** The direction that undoes a step: up/down and left/right. */
  function Opposite(d: Direction): (r: Direction)
    ensures r != d
    ensures Delta(r).0 == -Delta(d).0 && Delta(r).1 == -Delta(d).1
  {
    match d
    case Up => Down
    case Down => Up
    case Left => Right
    case Right => Left
  }

  /** The six world directions a face of the die can point to, with the enum values of the source. */
  datatype Orientation = Top | North | East | Bottom | South | West

  function Value(o: Orientation): (v: nat)
    ensures v < 6
  {
    match o
    case Top => 0
    case North => 1
    case East => 2
    case Bottom => 3
    case South => 4
    case West => 5
  }

  function OfValue(v: nat): (o: Orientation)
    requires v < 6
    ensures Value(o) == v
  {
    if v == 0 then Top
    else if v == 1 then North
    else if v == 2 then East
    else if v == 3 then Bottom
    else if v == 4 then South
    else West
  }

  /** The opposite world direction. */
  function Op(o: Orientation): (r: Orientation)
    ensures r != o
  {
    match o
    case Top => Bottom
    case North => South
    case East => West
    case Bottom => Top
    case South => North
    case West => East
  }

  /** Op is the source's rule: the label whose value is three further on, modulo six. */
  lemma OpIsValuePlusThree(o: Orientation)
    ensures Op(o) == OfValue((Value(o) + 3) % 6)
  {
  }

  lemma OpIsInvolution(o: Orientation)
    ensures Op(Op(o)) == o
    ensures Op(o) != o
  {
  }

  /** Faces of the die in its own frame. */
  datatype Face = XPos | XNeg | YPos | YNeg | ZPos | ZNeg

  // ---------- a coordinate reference for the labels ----------

  datatype Vec = Vec(a: int, b: int, c: int)

  /** The unit vector of a label in a right-handed world frame: East, North, Top = +x, +y, +z. */
  function Axis(o: Orientation): Vec
  {
    match o
    case East => Vec(1, 0, 0)
    case West => Vec(-1, 0, 0)
    case North => Vec(0, 1, 0)
    case South => Vec(0, -1, 0)
    case Top => Vec(0, 0, 1)
    case Bottom => Vec(0, 0, -1)
  }

  /** The world axis a label lies on: 0 east-west, 1 north-south, 2 top-bottom. */
  function AxisIndex(o: Orientation): (i: nat)
    ensures i < 3
  {
    match o
    case East => 0
    case West => 0
    case North => 1
    case South => 1
    case Top => 2
    case Bottom => 2
  }

  /** Whether a label points along its axis positively. */
  predicate Positive(o: Orientation)
  {
    o == East || o == North || o == Top
  }

  /** The vector cross product u × v. */
  function Cross(u: Vec, v: Vec): Vec
  {
    Vec(u.b * v.c - u.c * v.b, u.c * v.a - u.a * v.c, u.a * v.b - u.b * v.a)
  }

  /**
   * A sign rule for the third axis of two perpendicular labels: positive
   * exactly when the signs of the two factors agree and the pair is in cyclic
   * order (x, y), (y, z), (z, x), or disagree and it is not.  The rule agrees
   * with the vector cross product (CrossLabelIsCross).
   */
  function CrossLabel(x: Orientation, y: Orientation): (z: Orientation)
    requires AxisIndex(x) != AxisIndex(y)
    ensures AxisIndex(z) != AxisIndex(x) && AxisIndex(z) != AxisIndex(y)
  {
    var i, j := AxisIndex(x), AxisIndex(y);
    var cyclic := j == (i + 1) % 3;
    var k := 3 - i - j;
    var positive := (Positive(x) == Positive(y)) == cyclic;
    if k == 0 then (if positive then East else West)
    else if k == 1 then (if positive then North else South)
    else (if positive then Top else Bottom)
  }

  /** The product of two numbers from {-1, 0, 1}, by cases. */
  function SignTimes(p: int, q: int): int
    requires -1 <= p <= 1 && -1 <= q <= 1
  {
    if p == 0 || q == 0 then 0 else if p == q then 1 else -1
  }

  lemma SignTimesIsProduct(p: int, q: int)
    requires -1 <= p <= 1 && -1 <= q <= 1
    ensures SignTimes(p, q) == p * q
  {
  }

  predicate IsUnitAxis(u: Vec)
  {
    -1 <= u.a <= 1 && -1 <= u.b <= 1 && -1 <= u.c <= 1
  }

  /** The cross product of vectors with components in {-1, 0, 1}, written with sign products. */
  function SignCross(u: Vec, v: Vec): Vec
    requires IsUnitAxis(u) && IsUnitAxis(v)
  {
    Vec(SignTimes(u.b, v.c) - SignTimes(u.c, v.b),
        SignTimes(u.c, v.a) - SignTimes(u.a, v.c),
        SignTimes(u.a, v.b) - SignTimes(u.b, v.a))
  }

  lemma CrossBySigns(u: Vec, v: Vec)
    requires IsUnitAxis(u) && IsUnitAxis(v)
    ensures Cross(u, v) == SignCross(u, v)
  {
    SignTimesIsProduct(u.b, v.c);
    SignTimesIsProduct(u.c, v.b);
    SignTimesIsProduct(u.c, v.a);
    SignTimesIsProduct(u.a, v.c);
    SignTimesIsProduct(u.a, v.b);
    SignTimesIsProduct(u.b, v.a);
  }

  lemma SignCrossLabel(x: Orientation, y: Orientation)
    requires AxisIndex(x) != AxisIndex(y)
    ensures IsUnitAxis(Axis(x)) && IsUnitAxis(Axis(y))
    ensures Axis(CrossLabel(x, y)) == SignCross(Axis(x), Axis(y))
  {
    SignCrossFirst(x, y);
    SignCrossSecond(x, y);
    SignCrossThird(x, y);
    SignCrossByComponents(Axis(x), Axis(y), Axis(CrossLabel(x, y)));
  }

  lemma SignCrossByComponents(u: Vec, v: Vec, w: Vec)
    requires IsUnitAxis(u) && IsUnitAxis(v)
    requires w.a == SignTimes(u.b, v.c) - SignTimes(u.c, v.b)
    requires w.b == SignTimes(u.c, v.a) - SignTimes(u.a, v.c)
    requires w.c == SignTimes(u.a, v.b) - SignTimes(u.b, v.a)
    ensures w == SignCross(u, v)
  {
  }

  lemma SignCrossFirst(x: Orientation, y: Orientation)
    requires AxisIndex(x) != AxisIndex(y)
    ensures Axis(CrossLabel(x, y)).a == SignTimes(Axis(x).b, Axis(y).c) - SignTimes(Axis(x).c, Axis(y).b)
  {
  }

  lemma SignCrossSecond(x: Orientation, y: Orientation)
    requires AxisIndex(x) != AxisIndex(y)
    ensures Axis(CrossLabel(x, y)).b == SignTimes(Axis(x).c, Axis(y).a) - SignTimes(Axis(x).a, Axis(y).c)
  {
  }

  lemma SignCrossThird(x: Orientation, y: Orientation)
    requires AxisIndex(x) != AxisIndex(y)
    ensures Axis(CrossLabel(x, y)).c == SignTimes(Axis(x).a, Axis(y).b) - SignTimes(Axis(x).b, Axis(y).a)
  {
  }

  /** The sign rule gives the label whose unit vector is the cross product of the two factors. */
  lemma CrossLabelIsCross(x: Orientation, y: Orientation)
    requires AxisIndex(x) != AxisIndex(y)
    ensures Axis(CrossLabel(x, y)) == Cross(Axis(x), Axis(y))
  {
    SignCrossLabel(x, y);
    CrossBySigns(Axis(x), Axis(y));
  }

  // ---------- right-handed frame map ----------

  /**
   * The lookup of the third axis z from (x, y); defined exactly on the 24
   * perpendicular pairs, and z then differs from both axes and their opposites.
   */
  function ZFromXY(x: Orientation, y: Orientation): (z: Option<Orientation>)
    ensures z.Some? <==> y != x && y != Op(x)
    ensures z.Some? ==> z.value != x && z.value != Op(x) && z.value != y && z.value != Op(y)
  {
    match (x, y)
    // x = East
    case (East, North) => Some(Top)
    case (East, South) => Some(Bottom)
    case (East, Top) => Some(South)
    case (East, Bottom) => Some(North)
    // x = West
    case (West, North) => Some(Bottom)
    case (West, South) => Some(Top)
    case (West, Top) => Some(North)
    case (West, Bottom) => Some(South)
    // x = North
    case (North, East) => Some(Bottom)
    case (North, West) => Some(Top)
    case (North, Top) => Some(East)
    case (North, Bottom) => Some(West)
    // x = South
    case (South, East) => Some(Top)
    case (South, West) => Some(Bottom)
    case (South, Top) => Some(West)
    case (South, Bottom) => Some(East)
    // x = Top
    case (Top, East) => Some(North)
    case (Top, West) => Some(South)
    case (Top, North) => Some(West)
    case (Top, South) => Some(East)
    // x = Bottom
    case (Bottom, East) => Some(South)
    case (Bottom, West) => Some(North)
    case (Bottom, North) => Some(East)
    case (Bottom, South) => Some(West)
    case _ => None
  }

  /** The table is right-handed: z is the cross product x × y. */
  lemma ZIsCrossProduct(x: Orientation, y: Orientation)
    requires ZFromXY(x, y).Some?
    ensures AxisIndex(x) != AxisIndex(y) && ZFromXY(x, y).value == CrossLabel(x, y)
  {
  }

  /** In vector terms: the unit vector of z is the cross product of those of x and y. */
  lemma ZIsVectorCross(x: Orientation, y: Orientation)
    requires ZFromXY(x, y).Some?
    ensures Axis(ZFromXY(x, y).value) == Cross(Axis(x), Axis(y))
  {
    ZIsCrossProduct(x, y);
    CrossLabelIsCross(x, y);
  }

  // ---------- cube ----------

  /** An orientation of the die: the world directions its x and y axes point to. */
  datatype Cube = Cube(x: Orientation, y: Orientation)

  /** The check the constructor performs: (x, y) is a key of the frame map. */
  predicate Valid(c: Cube)
  {
    ZFromXY(c.x, c.y).Some?
  }

  datatype CubeError = InvalidOrientation(x: Orientation, y: Orientation) | IndexOutOfRange(i: int)

  /** Construction with validation: an illegal pair is refused with an error. */
  function NewCube(x: Orientation, y: Orientation): (r: Result<Cube, CubeError>)
    ensures r.Ok? <==> y != x && y != Op(x)
    ensures r.Ok? ==> Valid(r.value) && r.value.x == x && r.value.y == y
    ensures r.Err? ==> r.error == InvalidOrientation(x, y)
  {
    if ZFromXY(x, y).Some? then Ok(Cube(x, y)) else Err(InvalidOrientation(x, y))
  }

  /** The derived third axis. */
  function Z(c: Cube): (z: Orientation)
    requires Valid(c)
    ensures z != c.x && z != Op(c.x) && z != c.y && z != Op(c.y)
  {
    ZFromXY(c.x, c.y).value
  }

  /** The six labels of a valid cube are pairwise distinct and so cover every label. */
  lemma SixLabelsCoverAll(c: Cube, target: Orientation)
    requires Valid(c)
    ensures target in {c.x, Op(c.x), c.y, Op(c.y), Z(c), Op(Z(c))}
  {
  }

  /**
   * The face of the die that points in world direction target. The source
   * builds a dictionary from the six labels; since they are pairwise distinct
   * a first-match chain gives the same map, and each face is hit by exactly
   * one label.
   */
  function FaceOf(c: Cube, target: Orientation): (f: Face)
    requires Valid(c)
    ensures f == XPos <==> target == c.x
    ensures f == XNeg <==> target == Op(c.x)
    ensures f == YPos <==> target == c.y
    ensures f == YNeg <==> target == Op(c.y)
    ensures f == ZPos <==> target == Z(c)
    ensures f == ZNeg <==> target == Op(Z(c))
  {
    SixLabelsCoverAll(c, target);
    if target == c.x then XPos
    else if target == Op(c.x) then XNeg
    else if target == c.y then YPos
    else if target == Op(c.y) then YNeg
    else if target == Z(c) then ZPos
    else ZNeg
  }

  /** Face is injective in the label, so a bijection between the six labels and the six faces. */
  lemma FaceIsBijection(c: Cube)
    requires Valid(c)
    ensures forall o, p :: FaceOf(c, o) == FaceOf(c, p) ==> o == p
    ensures (set o: Orientation | true :: FaceOf(c, o)) == {XPos, XNeg, YPos, YNeg, ZPos, ZNeg}
  {
    var image := set o: Orientation | true :: FaceOf(c, o);
    assert FaceOf(c, c.x) in image && FaceOf(c, Op(c.x)) in image;
    assert FaceOf(c, c.y) in image && FaceOf(c, Op(c.y)) in image;
    assert FaceOf(c, Z(c)) in image && FaceOf(c, Op(Z(c))) in image;
  }

  // ---------- rolling ----------

  /**
   * The per-direction 4-cycle of labels: the table entry for a label, or
   * None for the two labels on the axis the die turns about.
   */
  function RollTable(d: Direction, o: Orientation): Option<Orientation>
  {
    match (d, o)
    case (Up, Top) => Some(North)
    case (Up, North) => Some(Bottom)
    case (Up, Bottom) => Some(South)
    case (Up, South) => Some(Top)
    case (Down, Top) => Some(South)
    case (Down, South) => Some(Bottom)
    case (Down, Bottom) => Some(North)
    case (Down, North) => Some(Top)
    case (Right, Top) => Some(East)
    case (Right, East) => Some(Bottom)
    case (Right, Bottom) => Some(West)
    case (Right, West) => Some(Top)
    case (Left, Top) => Some(West)
    case (Left, West) => Some(Bottom)
    case (Left, Bottom) => Some(East)
    case (Left, East) => Some(Top)
    case _ => None
  }

  /** The quarter turn of a world vector that tipping the die in direction d performs. */
  function Rotate(d: Direction, v: Vec): Vec
  {
    match d
    case Up => Vec(v.a, v.c, -v.b)
    case Down => Vec(v.a, -v.c, v.b)
    case Right => Vec(v.c, v.b, -v.a)
    case Left => Vec(-v.c, v.b, v.a)
  }

  /** Looking a label up in the direction's table, passing it through when it is not a key. */
  function Rot(d: Direction, o: Orientation): Orientation
  {
    var entry := RollTable(d, o);
    if entry.Some? then entry.value else o
  }

  /** Each table is the quarter turn of the world that tipping the die performs. */
  lemma RotIsQuarterTurn(d: Direction, o: Orientation)
    ensures Axis(Rot(d, o)) == Rotate(d, Axis(o))
  {
    match d
    case Up => QuarterTurnUp(o);
    case Down => QuarterTurnDown(o);
    case Right => QuarterTurnRight(o);
    case Left => QuarterTurnLeft(o);
  }

  lemma QuarterTurnUp(o: Orientation)
    ensures Axis(Rot(Up, o)) == Rotate(Up, Axis(o))
  {
  }

  lemma QuarterTurnDown(o: Orientation)
    ensures Axis(Rot(Down, o)) == Rotate(Down, Axis(o))
  {
  }

  lemma QuarterTurnRight(o: Orientation)
    ensures Axis(Rot(Right, o)) == Rotate(Right, Axis(o))
  {
  }

  lemma QuarterTurnLeft(o: Orientation)
    ensures Axis(Rot(Left, o)) == Rotate(Left, Axis(o))
  {
  }

  lemma RotCommutesWithOp(d: Direction, o: Orientation)
    ensures Rot(d, Op(o)) == Op(Rot(d, o))
  {
    match o
    case Top =>
    case North =>
    case East =>
    case Bottom =>
    case South =>
    case West =>
  }

  /** Tables of opposite directions undo each other. */
  lemma RotOppositeCancels(d: Direction, o: Orientation)
    ensures Rot(Opposite(d), Rot(d, o)) == o
  {
  }

  /** Each table is a 4-cycle: four quarter turns are the identity. */
  lemma RotFourTimes(d: Direction, o: Orientation)
    ensures Rot(d, Rot(d, Rot(d, Rot(d, o)))) == o
  {
  }

  /**
   * Tipping the die: both stored axes are pushed through the direction's
   * table. The new pair passes the constructor's check, and the derived z
   * follows the same table.
   */
  function Roll(c: Cube, d: Direction): (r: Cube)
    requires Valid(c)
    ensures Valid(r)
    ensures Z(r) == Rot(d, Z(c))
  {
    RollKeepsFrame(c, d);
    Cube(Rot(d, c.x), Rot(d, c.y))
  }

  /** The construction inside roll never raises: the validated constructor accepts the rotated pair. */
  lemma RollPassesValidation(c: Cube, d: Direction)
    requires Valid(c)
    ensures NewCube(Rot(d, c.x), Rot(d, c.y)) == Ok(Roll(c, d))
  {
  }

  /** The rotated pair is a key of the frame map, and its entry is the rotated z. */
  lemma RollKeepsFrame(c: Cube, d: Direction)
    requires Valid(c)
    ensures ZFromXY(Rot(d, c.x), Rot(d, c.y)) == Some(Rot(d, Z(c)))
  {
    match d
    case Up => RollKeepsFrameUp(c);
    case Down => RollKeepsFrameDown(c);
    case Right => RollKeepsFrameRight(c);
    case Left => RollKeepsFrameLeft(c);
  }

  lemma RollKeepsFrameUp(c: Cube)
    requires Valid(c)
    ensures ZFromXY(Rot(Up, c.x), Rot(Up, c.y)) == Some(Rot(Up, Z(c)))
  {
  }

  lemma RollKeepsFrameDown(c: Cube)
    requires Valid(c)
    ensures ZFromXY(Rot(Down, c.x), Rot(Down, c.y)) == Some(Rot(Down, Z(c)))
  {
  }

  lemma RollKeepsFrameRight(c: Cube)
    requires Valid(c)
    ensures ZFromXY(Rot(Right, c.x), Rot(Right, c.y)) == Some(Rot(Right, Z(c)))
  {
  }

  lemma RollKeepsFrameLeft(c: Cube)
    requires Valid(c)
    ensures ZFromXY(Rot(Left, c.x), Rot(Left, c.y)) == Some(Rot(Left, Z(c)))
  {
  }

  /** Rolling one way and then the opposite way restores the orientation. */
  lemma RollOppositeCancels(c: Cube, d: Direction)
    requires Valid(c)
    ensures Roll(Roll(c, d), Opposite(d)) == c
  {
    RotOppositeCancels(d, c.x);
    RotOppositeCancels(d, c.y);
  }

  /** Rolling four times in one direction restores the orientation. */
  lemma RollFourTimes(c: Cube, d: Direction)
    requires Valid(c)
    ensures Roll(Roll(Roll(Roll(c, d), d), d), d) == c
  {
    var c1 := Roll(c, d);
    var c2 := Roll(c1, d);
    var c3 := Roll(c2, d);
    RotFourTimes(d, c.x);
    RotFourTimes(d, c.y);
  }

  /** Rolling is a bijection on the valid cubes: every cube has exactly one predecessor. */
  lemma RollIsBijection(c: Cube, d: Direction)
    requires Valid(c)
    ensures Valid(Roll(c, Opposite(d))) && Roll(Roll(c, Opposite(d)), d) == c
    ensures forall b :: Valid(b) && Roll(b, d) == c ==> b == Roll(c, Opposite(d))
  {
    RollOppositeCancels(c, Opposite(d));
    assert Opposite(Opposite(d)) == d;
    forall b | Valid(b) && Roll(b, d) == c ensures b == Roll(c, Opposite(d)) {
      RollOppositeCancels(b, d);
    }
  }

  lemma RotInjective(d: Direction, p: Orientation, q: Orientation)
    ensures Rot(d, p) == Rot(d, q) ==> p == q
  {
    RotOppositeCancels(d, p);
    RotOppositeCancels(d, q);
  }

  /** The face that pointed in direction o points in direction Rot(d, o) after the roll. */
  lemma RollCarriesFaces(c: Cube, d: Direction, o: Orientation)
    requires Valid(c)
    ensures FaceOf(Roll(c, d), Rot(d, o)) == FaceOf(c, o)
  {
    var r := Roll(c, d);
    RotCommutesWithOp(d, c.x);
    RotCommutesWithOp(d, c.y);
    RotCommutesWithOp(d, Z(c));
    RotInjective(d, o, c.x);
    RotInjective(d, o, Op(c.x));
    RotInjective(d, o, c.y);
    RotInjective(d, o, Op(c.y));
    RotInjective(d, o, Z(c));
    RotInjective(d, o, Op(Z(c)));
    assert r.x == Rot(d, c.x) && r.y == Rot(d, c.y) && Z(r) == Rot(d, Z(c));
  }

  // ---------- encoding ----------

  /** The keys of the frame map in its declaration order, as all_cubes appends them. */
  const AllCubes: seq<Cube> := [
    Cube(East, North), Cube(East, South), Cube(East, Top), Cube(East, Bottom),
    Cube(West, North), Cube(West, South), Cube(West, Top), Cube(West, Bottom),
    Cube(North, East), Cube(North, West), Cube(North, Top), Cube(North, Bottom),
    Cube(South, East), Cube(South, West), Cube(South, Top), Cube(South, Bottom),
    Cube(Top, East), Cube(Top, West), Cube(Top, North), Cube(Top, South),
    Cube(Bottom, East), Cube(Bottom, West), Cube(Bottom, North), Cube(Bottom, South)
  ]

  /** The enumeration holds 24 distinct valid cubes and every valid cube: exactly the keys of the map. */
  lemma AllCubesEnumeratesKeys()
    ensures |AllCubes| == 24
    ensures forall i :: 0 <= i < |AllCubes| ==> Valid(AllCubes[i])
    ensures forall i, j :: 0 <= i < j < |AllCubes| ==> AllCubes[i] != AllCubes[j]
    ensures forall c :: Valid(c) ==> c in AllCubes
  {
    AllCubesAreValid();
    AllCubesAreDistinct();
    AllCubesAreComplete();
  }

  lemma AllCubesAreValid()
    ensures |AllCubes| == 24
    ensures forall i :: 0 <= i < |AllCubes| ==> Valid(AllCubes[i])
  {
  }

  lemma AllCubesAreDistinct()
    ensures forall i, j :: 0 <= i < j < |AllCubes| ==> AllCubes[i] != AllCubes[j]
  {
  }

  lemma AllCubesAreComplete()
    ensures forall c :: Valid(c) ==> c in AllCubes
  {
  }

  /** The first position of c in s: the list's index method. */
  function IndexOf(s: seq<Cube>, c: Cube): (i: nat)
    requires c in s
    ensures i < |s| && s[i] == c
    ensures c !in s[..i]
  {
    if s[0] == c then 0 else 1 + IndexOf(s[1..], c)
  }

  /** The position of a cube in the enumeration. */
  function Encode(c: Cube): (i: nat)
    requires Valid(c)
    ensures i < 24 && AllCubes[i] == c
  {
    AllCubesEnumeratesKeys();
    IndexOf(AllCubes, c)
  }

  /** List indexing into the enumeration, negative indices counting from the end. */
  function Decode(i: int): (r: Result<Cube, CubeError>)
    ensures r.Ok? <==> -24 <= i < 24
    ensures r.Ok? ==> Valid(r.value)
    ensures r.Err? ==> r.error == IndexOutOfRange(i)
  {
    AllCubesEnumeratesKeys();
    if 0 <= i < |AllCubes| then Ok(AllCubes[i])
    else if -|AllCubes| <= i < 0 then Ok(AllCubes[|AllCubes| + i])
    else Err(IndexOutOfRange(i))
  }

  /** A negative index counts from the end: it decodes as the index 24 further on. */
  lemma DecodeNegative(i: int)
    requires -24 <= i < 0
    ensures Decode(i) == Decode(i + 24)
    ensures Decode(i).Ok? && Encode(Decode(i).value) == i + 24
  {
    EncodeDecode(i + 24);
  }

  lemma DecodeEncode(c: Cube)
    requires Valid(c)
    ensures Decode(Encode(c)) == Ok(c)
  {
  }

  lemma EncodeDecode(i: int)
    requires 0 <= i < 24
    ensures Decode(i).Ok? && Encode(Decode(i).value) == i
  {
    AllCubesEnumeratesKeys();
  }
}
