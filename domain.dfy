/**
 * The enumerations shared between server and client (the domain model
 * package): account types, normal balances with their case-insensitive
 * `fromString`, reconciliation statuses with their one-letter register
 * symbols, and currencies with their symbol and display name.
 */
module Domain {
  import opened Wrappers
  import opened Text
  import Tables

  datatype AccountType = ASSET | LIABILITY | EQUITY | INCOME | EXPENSE

  datatype NormalBalance = DEBIT | CREDIT

  datatype ReconcileStatus = NEW | CLEARED | RECONCILED

  datatype Currency = USD | EUR | RSD

  function AccountTypeName(t: AccountType): string {
    match t
    case ASSET => "ASSET"
    case LIABILITY => "LIABILITY"
    case EQUITY => "EQUITY"
    case INCOME => "INCOME"
    case EXPENSE => "EXPENSE"
  }

  function NormalBalanceName(nb: NormalBalance): string {
    match nb
    case DEBIT => "DEBIT"
    case CREDIT => "CREDIT"
  }

  function StatusName(st: ReconcileStatus): string {
    match st
    case NEW => "NEW"
    case CLEARED => "CLEARED"
    case RECONCILED => "RECONCILED"
  }

  /** The shared copy of `NormalBalance.fromAccountType`. */
  function FromAccountType(t: AccountType): (nb: NormalBalance)
    ensures nb == DEBIT <==> t == ASSET || t == EXPENSE
  {
    match t
    case ASSET | EXPENSE => DEBIT
    case LIABILITY | EQUITY | INCOME => CREDIT
  }

  /** The server's account type of the same name. */
  function ServerType(t: AccountType): (s: Tables.AccountType)
    ensures Tables.AccountTypeName(s) == AccountTypeName(t)
  {
    match t
    case ASSET => Tables.ASSET
    case LIABILITY => Tables.LIABILITY
    case EQUITY => Tables.EQUITY
    case INCOME => Tables.INCOME
    case EXPENSE => Tables.EXPENSE
  }

  /** Client and server agree, name for name, on the normal balance of every account type. */
  lemma FromAccountTypeAgrees(t: AccountType)
    ensures NormalBalanceName(FromAccountType(t))
         == Tables.NormalBalanceName(Tables.FromAccountType(ServerType(t)))
  {
  }

  /** `NormalBalance.valueOf(u)`. */
  function ParseNormalBalance(u: string): (r: Option<NormalBalance>)
    ensures forall nb :: r == Some(nb) <==> u == NormalBalanceName(nb)
  {
    if u == "DEBIT" then Some(DEBIT)
    else if u == "CREDIT" then Some(CREDIT)
    else None
  }

  /** `ReconcileStatus.valueOf(u)`. */
  function ParseStatus(u: string): (r: Option<ReconcileStatus>)
    ensures forall st :: r == Some(st) <==> u == StatusName(st)
  {
    if u == "NEW" then Some(NEW)
    else if u == "CLEARED" then Some(CLEARED)
    else if u == "RECONCILED" then Some(RECONCILED)
    else None
  }

  /** `NormalBalance.fromString`: `valueOf(value.uppercase())`, `None` where it throws. */
  function NormalBalanceFromString(value: string): (r: Option<NormalBalance>)
    ensures forall nb :: r == Some(nb) <==> Upper(value) == NormalBalanceName(nb)
  {
    ParseNormalBalance(Upper(value))
  }

  /** `ReconcileStatus.fromString`. */
  function StatusFromString(value: string): (r: Option<ReconcileStatus>)
    ensures forall st :: r == Some(st) <==> Upper(value) == StatusName(st)
  {
    ParseStatus(Upper(value))
  }

  /** `fromString` accepts a normal-balance name in any mix of letter cases. */
  lemma NormalBalanceAnyCase(value: string, nb: NormalBalance)
    requires Tables.SameIgnoringCase(value, NormalBalanceName(nb))
    ensures NormalBalanceFromString(value) == Some(nb)
  {
    Tables.UpperIgnoringCase(value, NormalBalanceName(nb));
  }

  /** `fromString` accepts a status name in any mix of letter cases. */
  lemma StatusAnyCase(value: string, st: ReconcileStatus)
    requires Tables.SameIgnoringCase(value, StatusName(st))
    ensures StatusFromString(value) == Some(st)
  {
    Tables.UpperIgnoringCase(value, StatusName(st));
  }

  /** The one-letter symbol of a status, as the register's reconcile column shows it. */
  function Symbol(st: ReconcileStatus): string {
    match st
    case NEW => "n"
    case CLEARED => "c"
    case RECONCILED => "y"
  }

  /** No two statuses share a symbol. */
  lemma SymbolsDistinct(a: ReconcileStatus, b: ReconcileStatus)
    requires Symbol(a) == Symbol(b)
    ensures a == b
  {
  }

  function CurrencySymbol(c: Currency): string {
    match c
    case USD => "$"
    case EUR => "€"
    case RSD => "RSD"
  }

  function DisplayName(c: Currency): string {
    match c
    case USD => "US Dollar"
    case EUR => "Euro"
    case RSD => "Serbian Dinar"
  }

  /** Each currency is told apart by its symbol and by its display name alone. */
  lemma CurrencyLabelsDistinct(a: Currency, b: Currency)
    requires CurrencySymbol(a) == CurrencySymbol(b) || DisplayName(a) == DisplayName(b)
    ensures a == b
  {
  }
}
