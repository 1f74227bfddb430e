/**
 * The immutable triple that describes one puzzle instance: how many
 * missionaries and cannibals there are in total and how many people the boat
 * can carry. The constructor validates nothing, so every triple of Java ints
 * is a value of this type.
 */
module Parameters {
  import opened Common

  /** Constructor and getters: the datatype constructor and its destructors. */
  datatype GameParameters = GameParameters(
    totalNumberOfMissionaries: int,
    totalNumberOfCannibals: int,
    boatCapacity: int)

  /** The getters hand back exactly what was passed to the constructor, whatever it was. */
  lemma GettersReturnConstructorArguments(missionaries: int, cannibals: int, capacity: int)
    ensures var p := GameParameters(missionaries, cannibals, capacity);
      && p.totalNumberOfMissionaries == missionaries
      && p.totalNumberOfCannibals == cannibals
      && p.boatCapacity == capacity
  {
  }

  /**
   * `equals`: false for `null` and for an object of another class,
   * otherwise a field-by-field comparison.
   */
  function Equals(p: GameParameters, obj: Ref<GameParameters>): (r: bool)
    ensures r <==> obj.Instance? && obj.value == p
  {
    match obj
    case Null => false
    case OtherClass => false
    case Instance(other) =>
      && p.totalNumberOfMissionaries == other.totalNumberOfMissionaries
      && p.totalNumberOfCannibals == other.totalNumberOfCannibals
      && p.boatCapacity == other.boatCapacity
  }

  /** `equals` is an equivalence relation on parameter objects. */
  lemma EqualsIsEquivalence(p: GameParameters, q: GameParameters, s: GameParameters)
    ensures Equals(p, Instance(p))
    ensures Equals(p, Instance(q)) == Equals(q, Instance(p))
    ensures Equals(p, Instance(q)) && Equals(q, Instance(s)) ==> Equals(p, Instance(s))
  {
  }

  const TwoTo32: int := 0x1_0000_0000

  /** The 32 bits of a Java int, read in two's complement. */
  function Bits(x: int): bv32
  {
    (x % TwoTo32) as bv32
  }

  /**
   * `hashCode`: the exclusive or of the three fields, given as the 32 bits
   * of the Java int it returns.
   */
  function HashCode(p: GameParameters): bv32
  {
    Bits(p.totalNumberOfMissionaries) ^ Bits(p.totalNumberOfCannibals) ^ Bits(p.boatCapacity)
  }

  /** Objects that are `equals` have equal hash codes. */
  lemma EqualParametersHaveEqualHashCodes(p: GameParameters, q: GameParameters)
    requires Equals(p, Instance(q))
    ensures HashCode(p) == HashCode(q)
  {
  }

  /**
   * The hash ignores which field holds which number: permuting the three
   * fields never changes it.
   */
  lemma HashCodeIgnoresFieldOrder(a: int, b: int, c: int)
    ensures HashCode(GameParameters(a, b, c)) == HashCode(GameParameters(b, a, c))
    ensures HashCode(GameParameters(a, b, c)) == HashCode(GameParameters(c, b, a))
  {
    assert Bits(a) ^ Bits(b) ^ Bits(c) == Bits(b) ^ Bits(a) ^ Bits(c);
    assert Bits(a) ^ Bits(b) ^ Bits(c) == Bits(c) ^ Bits(b) ^ Bits(a);
  }
}
