/**
 * The types of the Sail intermediate representation. The `types` module of the
 * implementation is not part of this model; its types are taken to be immutable
 * values compared structurally.
 */
module Types {
  datatype Type =
    | Int                                   // arbitrary-precision integer
    | MachineInt                            // 64-bit machine integer
    | GenericBitVector                      // bitvector of dynamic width
    | SmallFixedBitVector(width: nat)       // fixed width that fits a machine word
    | BigFixedBitVector(width: nat)
    | FixedBitVector(width: nat)            // fixed width, as named by the front end
    | SmallBitVector(width: nat)            // `%sbvN`: width bound only
    | Bool
    | Unit
    | Bit
    | String
    | Real
    | Enum(name: string, elements: seq<string>)
    | Struct(name: string, names: seq<string>, tuplestruct: bool)   // field names in order
    | Union(name: string)
    | Vec(of: Type)
    | Ref(refto: Type)
    | Tuple(items: seq<Type>)
    | Function(argtype: Type, restype: Type)

  /**
   * `isinstance(t, SmallFixedBitVector)`. A `Bit` is a one-bit small fixed
   * bitvector: the IR builds `SmallBitVectorConstant(0, Bit())`, and that
   * constructor insists on a small fixed bitvector type.
   */
  predicate IsSmallFixed(t: Type) { t.SmallFixedBitVector? || t.Bit? }

  function SmallWidth(t: Type): nat
    requires IsSmallFixed(t)
  {
    if t.Bit? then 1 else t.width
  }
}
