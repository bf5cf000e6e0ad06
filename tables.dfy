/**
 * The server's enumerations and their names: the account type, the
 * normal balance a type implies, the supported currencies and the
 * reconciliation status of a split. Enum columns are stored by name, and
 * request fields are read with `valueOf(s.uppercase())`, which throws on
 * any string that is not exactly one of the names once upper-cased.
 */
module Tables {
  import opened Wrappers
  import opened Text

  datatype AccountType = ASSET | LIABILITY | EQUITY | INCOME | EXPENSE

  datatype NormalBalance = DEBIT | CREDIT

  datatype Currency = USD | EUR | RSD

  datatype ReconcileStatus = NEW | CLEARED | RECONCILED

  /**
   * `NormalBalance.fromAccountType`: assets and expenses grow with debits,
   * liabilities, equity and income with credits.
   */
  function FromAccountType(t: AccountType): (nb: NormalBalance)
    ensures nb == DEBIT <==> t == ASSET || t == EXPENSE
    ensures nb == CREDIT <==> t == LIABILITY || t == EQUITY || t == INCOME
  {
    match t
    case ASSET | EXPENSE => DEBIT
    case LIABILITY | EQUITY | INCOME => CREDIT
  }

  // ------------------------------------------------------------------ names

  function AccountTypeName(t: AccountType): string {
    match t
    case ASSET => "ASSET"
    case LIABILITY => "LIABILITY"
    case EQUITY => "EQUITY"
    case INCOME => "INCOME"
    case EXPENSE => "EXPENSE"
  }

  function NormalBalanceName(nb: NormalBalance): string {
    match nb
    case DEBIT => "DEBIT"
    case CREDIT => "CREDIT"
  }

  function CurrencyName(c: Currency): string {
    match c
    case USD => "USD"
    case EUR => "EUR"
    case RSD => "RSD"
  }

  function StatusName(st: ReconcileStatus): string {
    match st
    case NEW => "NEW"
    case CLEARED => "CLEARED"
    case RECONCILED => "RECONCILED"
  }

  // --------------------------------------------------------------- valueOf

  /** `AccountType.valueOf(s)`: exactly the five names, `None` otherwise. */
  function ParseAccountType(s: string): (r: Option<AccountType>)
    ensures forall t :: r == Some(t) <==> s == AccountTypeName(t)
  {
    if s == "ASSET" then Some(ASSET)
    else if s == "LIABILITY" then Some(LIABILITY)
    else if s == "EQUITY" then Some(EQUITY)
    else if s == "INCOME" then Some(INCOME)
    else if s == "EXPENSE" then Some(EXPENSE)
    else None
  }

  /** `Currency.valueOf(s)`: the currencies are exactly USD, EUR and RSD. */
  function ParseCurrency(s: string): (r: Option<Currency>)
    ensures forall c :: r == Some(c) <==> s == CurrencyName(c)
    ensures r.Some? <==> s == "USD" || s == "EUR" || s == "RSD"
  {
    if s == "USD" then Some(USD)
    else if s == "EUR" then Some(EUR)
    else if s == "RSD" then Some(RSD)
    else None
  }

  /** `ReconcileStatus.valueOf(s)`. */
  function ParseStatus(s: string): (r: Option<ReconcileStatus>)
    ensures forall st :: r == Some(st) <==> s == StatusName(st)
  {
    if s == "NEW" then Some(NEW)
    else if s == "CLEARED" then Some(CLEARED)
    else if s == "RECONCILED" then Some(RECONCILED)
    else None
  }

  /** `valueOf(s.uppercase())`, the way every request field naming an enum is read. */
  function ReadAccountType(s: string): Option<AccountType> {
    ParseAccountType(Upper(s))
  }

  function ReadCurrency(s: string): Option<Currency> {
    ParseCurrency(Upper(s))
  }

  function ReadStatus(s: string): Option<ReconcileStatus> {
    ParseStatus(Upper(s))
  }

  // --------------------------------------------------------------- defaults

  /** Column defaults of the accounts and splits tables. */
  const DefaultNormalBalance: NormalBalance := DEBIT
  const DefaultPlaceholder: bool := false
  const DefaultStatus: ReconcileStatus := NEW

  /** The lower-case ASCII letter of an upper-case one; anything else unchanged. */
  function LowerAscii(c: char): char {
    if 'A' <= c <= 'Z' then (c as int + 32) as char else c
  }

  /** `t` equals `name` ignoring the case of ASCII letters. */
  predicate SameIgnoringCase(t: string, name: string) {
    |t| == |name| && forall i :: 0 <= i < |t| ==> t[i] == name[i] || t[i] == LowerAscii(name[i])
  }

  /** An upper-case ASCII name written in any mix of cases upper-cases back to the name. */
  lemma UpperIgnoringCase(t: string, name: string)
    requires SameIgnoringCase(t, name)
    requires forall i :: 0 <= i < |name| ==> 'A' <= name[i] <= 'Z'
    ensures Upper(t) == name
  {
    assert IsAscii(t);
    var u := Upper(t);
    forall i | 0 <= i < |t|
      ensures u[i] == name[i]
    {
      assert UpperOf(t[i])[0] == name[i];
    }
  }

  /** A request may spell a status in any case. */
  lemma ReadStatusAnyCase(t: string, st: ReconcileStatus)
    requires SameIgnoringCase(t, StatusName(st))
    ensures ReadStatus(t) == Some(st)
  {
    UpperIgnoringCase(t, StatusName(st));
  }

  lemma ReadCurrencyAnyCase(t: string, c: Currency)
    requires SameIgnoringCase(t, CurrencyName(c))
    ensures ReadCurrency(t) == Some(c)
  {
    UpperIgnoringCase(t, CurrencyName(c));
  }

  lemma ReadAccountTypeAnyCase(t: string, at: AccountType)
    requires SameIgnoringCase(t, AccountTypeName(at))
    ensures ReadAccountType(t) == Some(at)
  {
    UpperIgnoringCase(t, AccountTypeName(at));
  }
}
