/** Values shared by every component of the framework. */
module Types {
  const TWO16 := 0x1_0000
  const TWO32 := 0x1_0000_0000
  const TWO64 := 0x1_0000_0000_0000_0000

  type Byte = x: int | 0 <= x < 256
  type U16 = x: int | 0 <= x < TWO16
  type U32 = x: int | 0 <= x < TWO32
  type U64 = x: int | 0 <= x < TWO64

  datatype Option<+T> = None | Some(value: T)

  /** Type number and instance number of a module. */
  datatype Id = Id(typeId: U16, instanceId: U64)

  /** Lifecycle state. The wire carries a plain number, so a peer may announce a code the enumeration does not name. */
  datatype ModuleState = Dead | Inactive | Active | Other(code: U32)

  datatype Msg = Msg(topic: seq<Byte>, data: seq<Byte>)

  /** A TCP endpoint. */
  datatype Addr = Addr(host: nat, port: nat)

  ghost predicate NoDuplicates(ids: seq<Id>) {
    forall i, j :: 0 <= i < j < |ids| ==> ids[i] != ids[j]
  }
}
