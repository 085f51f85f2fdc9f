/** The identifiers, positions and addresses that several parts of the client share. */
module CoreTypes {

  type Uuid = nat

  const U64_LIMIT: nat := 0x1_0000_0000_0000_0000
  type U64 = n: nat | n < U64_LIMIT

  /** A place in the transaction log. */
  datatype Position = Position(commit: U64, prepare: U64)

  /** A node's address. */
  datatype Endpoint = Endpoint(host: string, port: nat)
}
