/** Shared vocabulary: optional values and WhatsApp addresses. */
module Types {

  datatype Option<+T> = None | Some(value: T)

  /** The servers the modelled code tells apart; every other server is carried by name. */
  datatype ServerName = Phone | Lid | Other(name: string)

  datatype Jid = Jid(user: string, device: nat, server: ServerName)

  /** The address of the person behind a device. */
  function NonAD(jid: Jid): Jid {
    jid.(device := 0)
  }

  /** An address without a server is the empty address. */
  predicate IsEmptyJid(jid: Jid) {
    jid.server == Other("")
  }

  function Flatten<T>(parts: seq<seq<T>>): seq<T> {
    if parts == [] then [] else Flatten(parts[..|parts| - 1]) + parts[|parts| - 1]
  }

  lemma FlattenSnoc<T>(parts: seq<seq<T>>, part: seq<T>)
    ensures Flatten(parts + [part]) == Flatten(parts) + part
  {
  }

  function Max(a: int, b: int): int {
    if a < b then b else a
  }

  /** What a receipt reports. */
  datatype ReceiptType = Delivered | Read | ReadSelf | Played | OtherType

  predicate NoDuplicates<T(==)>(s: seq<T>) {
    forall i, j | 0 <= i < j < |s| :: s[i] != s[j]
  }
}
