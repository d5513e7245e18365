/**
 * The payment record the ledger stores. Every field the entity declares is
 * here; a field Java may leave null is an `Option`. The amount and the
 * sender are plain values because the switch dereferences both without a
 * null check.
 */
module LedgerModel {
  import opened JavaLang
  import opened Decimal

  /** A reading of the wall clock. Only equality of readings matters here. */
  type LocalDateTime = int

  datatype Transaction = Transaction(
    id: Option<int>,
    reference: Option<string>,
    amount: BigDecimal,
    senderAccount: string,
    receiverAccount: Option<string>,
    currency: Option<string>,
    status: Option<string>,
    timestamp: Option<LocalDateTime>,
    category: Option<string>
  )

  /**
   * A new payment as a client submits it: what it is for, how much and from
   * whom. The store has not numbered it yet, and routing, currency, status,
   * time and category are still blank.
   */
  function Submitted(reference: Option<string>, amount: BigDecimal, sender: string): (t: Transaction)
    ensures t.reference == reference && t.amount == amount && t.senderAccount == sender
    ensures t.id.None? && t.receiverAccount.None? && t.currency.None?
    ensures t.status.None? && t.timestamp.None? && t.category.None?
  {
    Transaction(None, reference, amount, sender, None, None, None, None, None)
  }
}
