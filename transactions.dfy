/** The transaction records exchanged with the statement backend (src/models/transactions.ts). */
module Transactions {
  import opened Wrappers

  /** The two transaction kinds the backend reports. */
  datatype TransactionType = Debit | Credit

  /** The string by which a kind travels over the wire and is shown in the form's select. */
  function TypeName(t: TransactionType): string
  {
    match t
    case Debit => "Debit"
    case Credit => "Credit"
  }

  /** A ledger entry as returned by the statement endpoint. The source's field `type`
      is called `kind` here (`type` is a Dafny keyword); `date` is kept as the
      backend's string and `anexo` is the optional base64 attachment. */
  datatype Transaction = Transaction(
    id: string,
    kind: TransactionType,
    value: real,
    date: string,
    accountId: string,
    anexo: Option<string>)

  /** The request body shape used when a transaction is created or edited. */
  datatype TransactionRequest = TransactionRequest(
    accountId: string,
    kind: TransactionType,
    value: real,
    anexo: Option<string>)

  /** No two entries of a list share an identifier. */
  ghost predicate UniqueIds(ts: seq<Transaction>)
  {
    forall i, j :: 0 <= i < j < |ts| ==> ts[i].id != ts[j].id
  }
}
