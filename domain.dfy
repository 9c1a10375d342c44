/**
 * The immutable records of the finance domain and the application state
 * snapshot that every command and event handler consumes and produces.
 * Python's frozen dataclasses become datatypes; "updating" a record means
 * building a new value.
 */
module Domain {

  /** A Python value that may be `None`. */
  datatype Option<+T> = None | Some(value: T) {
    /** `value if value is not None else default` */
    function GetOr(default: T): T {
      match this
      case Some(v) => v
      case None => default
    }
  }

  datatype Account = Account(id: string, name: string, balance: int, currency: string)

  /** `kind` is the source's `type` field ("income" or "expense"), informational only. */
  datatype Category = Category(id: string, name: string, parentId: Option<string>, kind: string)

  /** `amount` is signed: positive for income, negative for expense. */
  datatype Transaction = Transaction(id: string, accountId: string, catId: string, amount: int, ts: string, note: string)

  datatype Budget = Budget(id: string, catId: string, limit: int, period: string)

  /** The event payload as a tagged variant instead of a dictionary. */
  datatype Payload = TransactionPayload(transaction: Transaction) | EmptyPayload

  datatype Event = Event(id: string, ts: string, name: string, payload: Payload)

  /** A budget-overrun notification, kept structured instead of formatted text. */
  datatype Alert = BudgetExceeded(budgetId: string, limit: int, spent: int)

  /**
   * The state snapshot: one field per key of the source's dictionary. Every
   * field is always present; a dictionary with a missing key has no
   * counterpart here.
   */
  datatype State = State(
    accounts: seq<Account>,
    categories: seq<Category>,
    transactions: seq<Transaction>,
    budgets: seq<Budget>,
    alerts: seq<Alert>)

  const TRANSACTION_ADDED: string := "TRANSACTION_ADDED"

  function Abs(x: int): nat {
    if x < 0 then -x else x
  }
}
