/** What the transaction layer names things by. */
module Transactions {
  import opened Bytes

  type TransactionId = nat
  type Lsn = nat
  type Key = (nat, Bytes)  // a table and a key in it
}
