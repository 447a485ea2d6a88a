/** The closed set of materials and the fixed property table the rule engine consults. */
module Materials {

  datatype MaterialType = Empty | Sand | Water | Stone | Wood | Fire | Smoke | Oil | Acid | Lava

  /** One row of the property table; an absent flag in the table is `false` here. */
  datatype Material = Material(
    name: string,
    color: string,
    density: real,
    flammable: bool,
    spreads: bool,
    evaporates: bool,
    corrosive: bool)

  /** The physical columns of one row: density and the four flags. */
  datatype Physics = Physics(density: real, flammable: bool, spreads: bool, evaporates: bool, corrosive: bool)

  /** The physical columns of the table, row by row. */
  function PhysicsOf(m: MaterialType): Physics
  {
    match m
    case Empty => Physics(0.0, false, false, false, false)
    case Sand  => Physics(4.0, false, false, false, false)
    case Water => Physics(2.0, false, true, false, false)
    case Stone => Physics(5.0, false, false, false, false)
    case Wood  => Physics(3.0, true, false, false, false)
    case Fire  => Physics(0.0, false, false, true, false)
    case Smoke => Physics(-1.0, false, false, true, false)
    case Oil   => Physics(1.5, true, true, false, false)
    case Acid  => Physics(3.0, false, true, false, true)
    case Lava  => Physics(4.0, false, true, false, false)
  }

  /** The display columns of the table: each row's name and colour. */
  function NameOf(m: MaterialType): string
  {
    match m
    case Empty => "Empty"
    case Sand  => "Sand"
    case Water => "Water"
    case Stone => "Stone"
    case Wood  => "Wood"
    case Fire  => "Fire"
    case Smoke => "Smoke"
    case Oil   => "Oil"
    case Acid  => "Acid"
    case Lava  => "Lava"
  }

  function ColorOf(m: MaterialType): string
  {
    match m
    case Empty => "#000000"
    case Sand  => "#e6c88c"
    case Water => "#4a80f5"
    case Stone => "#808080"
    case Wood  => "#8b4513"
    case Fire  => "#ff4500"
    case Smoke => "#555555"
    case Oil   => "#8b4513"
    case Acid  => "#32cd32"
    case Lava  => "#ff4500"
  }

  /** A lower-case hexadecimal digit. */
  predicate HexDigit(c: char)
  {
    '0' <= c <= '9' || 'a' <= c <= 'f'
  }

  /** A `#rrggbb` colour: `#` followed by six lower-case hexadecimal digits. */
  predicate HexColor(s: string)
  {
    |s| == 7 && s[0] == '#' && HexDigit(s[1]) && HexDigit(s[2]) && HexDigit(s[3]) &&
    HexDigit(s[4]) && HexDigit(s[5]) && HexDigit(s[6])
  }

  /**
   * The property table: total over the enumeration, its physical columns those
   * the rules consult, and every entry with a name and a `#rrggbb` colour.
   */
  function Lookup(m: MaterialType): (r: Material)
    ensures |r.name| > 0
    ensures HexColor(r.color)
    ensures r.density == Density(m) && r.flammable == Flammable(m) && r.spreads == Spreads(m)
    ensures r.evaporates == Evaporates(m) && r.corrosive == Corrosive(m)
  {
    var p := PhysicsOf(m);
    Material(NameOf(m), ColorOf(m), p.density, p.flammable, p.spreads, p.evaporates, p.corrosive)
  }

  function Density(m: MaterialType): real { PhysicsOf(m).density }
  predicate Flammable(m: MaterialType) { PhysicsOf(m).flammable }
  predicate Spreads(m: MaterialType) { PhysicsOf(m).spreads }
  predicate Evaporates(m: MaterialType) { PhysicsOf(m).evaporates }
  predicate Corrosive(m: MaterialType) { PhysicsOf(m).corrosive }

  /** Which materials carry each flag. */
  lemma FlagsOfMaterials(m: MaterialType)
    ensures Flammable(m) <==> m == Wood || m == Oil
    ensures Spreads(m) <==> m == Water || m == Oil || m == Acid || m == Lava
    ensures Evaporates(m) <==> m == Fire || m == Smoke
    ensures Corrosive(m) <==> m == Acid
  {
  }

  /** Only empty, fire and smoke are weightless or buoyant, and nothing is denser than stone. */
  lemma DensityOfMaterials(m: MaterialType)
    ensures Density(m) <= 0.0 <==> m == Empty || m == Fire || m == Smoke
    ensures Density(m) <= Density(Stone)
    ensures Density(m) == Density(Stone) ==> m == Stone
  {
  }
}
