/**
 * Checking the splits of a transaction request before anything is
 * written: at least two splits, every field readable, and in every
 * currency the amounts add up to zero.
 *
 * Two versions of the balance rule live here. `ValidateSplits` is the
 * rule the service applies: it adds the amounts exactly as the request
 * spells them. The amount column keeps four fraction digits, so amounts
 * with more digits are rounded on their way in, and a request that
 * balances exactly can be stored unbalanced (`RoundingImbalance`).
 * `ValidateStoredSplits` adds the check on the amounts the column will
 * hold; it agrees with `ValidateSplits` whenever no amount has more than
 * four fraction digits (`StoredAgrees`), and the transaction service
 * uses it so that every stored transaction balances.
 */
module SplitValidation {
  import opened Wrappers
  import opened Text
  import opened Uuid
  import opened Tables
  import opened Errors
  import opened Decimal
  import opened Dates

  datatype SplitRequest = SplitRequest(
    accountId: string,
    amount: string,
    currency: string,
    memo: Option<string>,
    reconcileStatus: Option<string>)

  datatype CreateTransactionRequest = CreateTransactionRequest(
    date: string,
    num: Option<string>,
    description: string,
    notes: Option<string>,
    splits: seq<SplitRequest>)

  // ------------------------------------------------------- single split

  /** The account id reads as a UUID, the amount as a `BigDecimal` and the currency as a currency name. */
  predicate WellFormed(s: SplitRequest) {
    ParseUuid(s.accountId).Some? && ParseDecimal(s.amount).Some? && ReadCurrency(s.currency).Some?
  }

  predicate AllWellFormed(splits: seq<SplitRequest>) {
    forall i :: 0 <= i < |splits| ==> WellFormed(splits[i])
  }

  /** A failure that names one unreadable field of a split. */
  predicate FieldError(f: Failure) {
    f.InvalidAccountId? || f.InvalidAmount? || f.InvalidCurrency?
  }

  /** The first field of one split that does not read, checked in the order account, amount, currency. */
  function SplitFailure(s: SplitRequest): (r: Option<Failure>)
    ensures r.None? <==> WellFormed(s)
    ensures r.Some? ==> FieldError(r.value)
    ensures ParseUuid(s.accountId).None? ==> r == Some(InvalidAccountId(s.accountId))
    ensures ParseUuid(s.accountId).Some? && ParseDecimal(s.amount).None? ==> r == Some(InvalidAmount(s.amount))
  {
    if ParseUuid(s.accountId).None? then Some(InvalidAccountId(s.accountId))
    else if ParseDecimal(s.amount).None? then Some(InvalidAmount(s.amount))
    else if ReadCurrency(s.currency).None? then Some(InvalidCurrency(s.currency))
    else None
  }

  /** The failure of the first split, in request order, that has an unreadable field. */
  function FieldFailure(splits: seq<SplitRequest>): (r: Option<Failure>)
    ensures r.None? <==> AllWellFormed(splits)
    ensures r.Some? ==> FieldError(r.value)
  {
    if splits == [] then None
    else if SplitFailure(splits[0]).Some? then SplitFailure(splits[0])
    else
      WellFormedCons(splits);
      FieldFailure(splits[1..])
  }

  lemma WellFormedCons(splits: seq<SplitRequest>)
    requires splits != []
    ensures AllWellFormed(splits) <==> WellFormed(splits[0]) && AllWellFormed(splits[1..])
  {
    if WellFormed(splits[0]) && AllWellFormed(splits[1..]) {
      forall i | 0 < i < |splits|
        ensures WellFormed(splits[i])
      {
        assert splits[i] == splits[1..][i - 1];
      }
    }
  }

  /** The failure reported is that of a split all of whose predecessors are well formed. */
  lemma {:induction false} FieldFailureFirst(splits: seq<SplitRequest>)
    requires FieldFailure(splits).Some?
    ensures exists i :: 0 <= i < |splits| && FieldFailure(splits) == SplitFailure(splits[i])
                        && forall j :: 0 <= j < i ==> WellFormed(splits[j])
  {
    if SplitFailure(splits[0]).Some? {
    } else {
      var tail := splits[1..];
      FieldFailureFirst(tail);
      var i :| 0 <= i < |tail| && FieldFailure(tail) == SplitFailure(tail[i])
               && forall j :: 0 <= j < i ==> WellFormed(tail[j]);
      assert tail[i] == splits[i + 1];
      forall j | 0 <= j < i + 1
        ensures WellFormed(splits[j])
      {
        if j > 0 {
          assert splits[j] == tail[j - 1];
        }
      }
    }
  }

  /** A readable split, its fields read the way the service reads them. */
  datatype Posting = Posting(
    account: Id,
    amount: Dec,
    currency: Currency,
    memo: Option<string>,
    reconcileStatus: Option<string>)

  /** `UUID.fromString`, `BigDecimal(String)` and `Currency.valueOf(currency.uppercase())` applied to one split. */
  function Read(s: SplitRequest): (p: Posting)
    requires WellFormed(s)
    ensures ParseUuid(s.accountId) == Some(p.account)
    ensures ParseDecimal(s.amount) == Some(p.amount)
    ensures ReadCurrency(s.currency) == Some(p.currency)
  {
    Posting(ParseUuid(s.accountId).value, ParseDecimal(s.amount).value, ReadCurrency(s.currency).value,
            s.memo, s.reconcileStatus)
  }

  /** The splits of a request, read one by one. */
  function Postings(splits: seq<SplitRequest>): (ps: seq<Posting>)
    requires AllWellFormed(splits)
    ensures |ps| == |splits|
    ensures forall i :: 0 <= i < |ps| ==> ps[i] == Read(splits[i])
  {
    seq(|splits|, i requires 0 <= i < |splits| => Read(splits[i]))
  }

  /** The key `groupBy { it.currency.uppercase() }` files a readable split under is its currency's name. */
  lemma GroupKey(s: SplitRequest)
    requires WellFormed(s)
    ensures Upper(s.currency) == CurrencyName(Read(s).currency)
  {
  }

  // ------------------------------------------------------ currency groups

  /** Some posting is in currency `c`. */
  predicate Uses(ps: seq<Posting>, c: Currency) {
    exists i :: 0 <= i < |ps| && ps[i].currency == c
  }

  lemma UsesSnoc(ps: seq<Posting>)
    requires ps != []
    ensures forall d :: Uses(ps, d) <==> Uses(ps[..|ps| - 1], d) || d == ps[|ps| - 1].currency
  {
    var n := |ps| - 1;
    forall d
      ensures Uses(ps, d) <==> Uses(ps[..n], d) || d == ps[n].currency
    {
      if Uses(ps, d) && d != ps[n].currency {
        var i :| 0 <= i < |ps| && ps[i].currency == d;
        assert ps[..n][i] == ps[i];
      }
      if Uses(ps[..n], d) {
        var i :| 0 <= i < n && ps[..n][i].currency == d;
        assert ps[i] == ps[..n][i];
      }
    }
  }

  /** `sumOf` over the postings in currency `c`, in request order, starting from `BigDecimal.ZERO`. */
  function GroupSum(ps: seq<Posting>, c: Currency): Dec {
    if ps == [] then Zero
    else
      var last := ps[|ps| - 1];
      var acc := GroupSum(ps[..|ps| - 1], c);
      if last.currency == c then Add(acc, last.amount) else acc
  }

  /** The currencies in order of first appearance: the order `groupBy` keeps its groups in. */
  function GroupOrder(ps: seq<Posting>): (r: seq<Currency>)
    ensures forall c :: c in r <==> Uses(ps, c)
    ensures forall i, j :: 0 <= i < j < |r| ==> r[i] != r[j]
  {
    if ps == [] then []
    else
      var init := GroupOrder(ps[..|ps| - 1]);
      var c := ps[|ps| - 1].currency;
      UsesSnoc(ps);
      if c in init then init else init + [c]
  }

  /** A currency no posting uses sums to `ZERO`. */
  lemma {:induction false} UnusedGroupSum(ps: seq<Posting>, c: Currency)
    requires !Uses(ps, c)
    ensures GroupSum(ps, c) == Zero
  {
    if ps != [] {
      UsesSnoc(ps);
      UnusedGroupSum(ps[..|ps| - 1], c);
    }
  }

  /** The first group, in `order`, whose sum `compareTo(ZERO) != 0`. */
  function UnbalancedGroup(order: seq<Currency>, ps: seq<Posting>): (r: Option<Failure>)
    ensures r.None? <==> forall i :: 0 <= i < |order| ==> Value(GroupSum(ps, order[i])) == 0.0
    ensures r.Some? ==> exists i :: 0 <= i < |order| && Value(GroupSum(ps, order[i])) != 0.0
                                    && r.value == Unbalanced(CurrencyName(order[i]), GroupSum(ps, order[i]))
  {
    if order == [] then None
    else if Value(GroupSum(ps, order[0])) != 0.0 then
      Some(Unbalanced(CurrencyName(order[0]), GroupSum(ps, order[0])))
    else
      var r := UnbalancedGroup(order[1..], ps);
      assert r.Some? ==> exists i :: 0 <= i < |order| && Value(GroupSum(ps, order[i])) != 0.0
                                    && r.value == Unbalanced(CurrencyName(order[i]), GroupSum(ps, order[i])) by {
        if r.Some? {
          var i :| 0 <= i < |order[1..]| && Value(GroupSum(ps, order[1..][i])) != 0.0
                   && r.value == Unbalanced(CurrencyName(order[1..][i]), GroupSum(ps, order[1..][i]));
          assert order[1..][i] == order[i + 1];
        }
      }
      r
  }

  lemma AllGroupsBalanced(ps: seq<Posting>, order: seq<Currency>)
    requires forall c :: Uses(ps, c) ==> c in order
    requires forall i :: 0 <= i < |order| ==> Value(GroupSum(ps, order[i])) == 0.0
    ensures forall c :: Value(GroupSum(ps, c)) == 0.0
  {
    forall c
      ensures Value(GroupSum(ps, c)) == 0.0
    {
      if Uses(ps, c) {
        var i :| 0 <= i < |order| && order[i] == c;
      } else {
        UnusedGroupSum(ps, c);
      }
    }
  }

  /** Checking the groups of an `order` that lists every currency in use checks every currency. */
  lemma GroupCheck(ps: seq<Posting>, order: seq<Currency>)
    requires forall c :: Uses(ps, c) ==> c in order
    ensures UnbalancedGroup(order, ps).None? <==> forall c :: Value(GroupSum(ps, c)) == 0.0
    ensures UnbalancedGroup(order, ps).Some? ==>
      exists c :: Value(GroupSum(ps, c)) != 0.0
                  && UnbalancedGroup(order, ps).value == Unbalanced(CurrencyName(c), GroupSum(ps, c))
  {
    if UnbalancedGroup(order, ps).None? {
      AllGroupsBalanced(ps, order);
    } else {
      var i :| 0 <= i < |order| && Value(GroupSum(ps, order[i])) != 0.0
               && UnbalancedGroup(order, ps).value == Unbalanced(CurrencyName(order[i]), GroupSum(ps, order[i]));
      var c := order[i];
      assert Value(GroupSum(ps, c)) != 0.0;
    }
  }

  /**
   * `validateSplits`: fewer than two splits first, then the fields of
   * each split in order, then the sum of every currency group, groups
   * taken in order of first appearance.
   */
  function ValidateSplits(splits: seq<SplitRequest>): (r: Option<Failure>)
    ensures r.None? <==>
      |splits| >= 2 && AllWellFormed(splits) && forall c :: Value(GroupSum(Postings(splits), c)) == 0.0
    ensures |splits| < 2 <==> r == Some(TooFewSplits)
    ensures r.Some? && r.value.Unbalanced? ==>
      |splits| >= 2 && AllWellFormed(splits)
      && exists c :: Value(GroupSum(Postings(splits), c)) != 0.0
                     && r.value == Unbalanced(CurrencyName(c), GroupSum(Postings(splits), c))
    ensures r.Some? && r != Some(TooFewSplits) && !r.value.Unbalanced? ==> |splits| >= 2 && r == FieldFailure(splits)
  {
    if |splits| < 2 then Some(TooFewSplits)
    else if FieldFailure(splits).Some? then FieldFailure(splits)
    else
      var ps := Postings(splits);
      var order := GroupOrder(ps);
      GroupCheck(ps, order);
      UnbalancedGroup(order, ps)
  }

  // --------------------------------------------------------- stored sums

  /** What the `decimal(19, 4)` column holds for a posting's amount, in ten-thousandths. */
  function Units(p: Posting): int {
    Round4(p.amount)
  }

  /** The sum, in ten-thousandths, of the stored amounts in currency `c`. */
  function StoredGroupSum(ps: seq<Posting>, c: Currency): int {
    if ps == [] then 0
    else
      var last := ps[|ps| - 1];
      StoredGroupSum(ps[..|ps| - 1], c) + (if last.currency == c then Units(last) else 0)
  }

  /** The first group, in `order`, whose stored amounts do not add up to zero. */
  function UnbalancedStoredGroup(order: seq<Currency>, ps: seq<Posting>): (r: Option<Failure>)
    ensures r.None? <==> forall i :: 0 <= i < |order| ==> StoredGroupSum(ps, order[i]) == 0
    ensures r.Some? ==> r.value.Unbalanced?
  {
    if order == [] then None
    else if StoredGroupSum(ps, order[0]) != 0 then
      Some(Unbalanced(CurrencyName(order[0]), Dec(StoredGroupSum(ps, order[0]), 4)))
    else
      UnbalancedStoredGroup(order[1..], ps)
  }

  lemma {:induction false} UnusedStoredSum(ps: seq<Posting>, c: Currency)
    requires !Uses(ps, c)
    ensures StoredGroupSum(ps, c) == 0
  {
    if ps != [] {
      UsesSnoc(ps);
      UnusedStoredSum(ps[..|ps| - 1], c);
    }
  }

  lemma AllStoredBalanced(ps: seq<Posting>, order: seq<Currency>)
    requires forall c :: Uses(ps, c) ==> c in order
    requires forall i :: 0 <= i < |order| ==> StoredGroupSum(ps, order[i]) == 0
    ensures forall c :: StoredGroupSum(ps, c) == 0
  {
    forall c
      ensures StoredGroupSum(ps, c) == 0
    {
      if Uses(ps, c) {
        var i :| 0 <= i < |order| && order[i] == c;
      } else {
        UnusedStoredSum(ps, c);
      }
    }
  }

  lemma StoredCheck(ps: seq<Posting>, order: seq<Currency>)
    requires forall c :: Uses(ps, c) ==> c in order
    ensures UnbalancedStoredGroup(order, ps).None? <==> forall c :: StoredGroupSum(ps, c) == 0
  {
    if UnbalancedStoredGroup(order, ps).None? {
      AllStoredBalanced(ps, order);
    } else {
      var i :| 0 <= i < |order| && StoredGroupSum(ps, order[i]) != 0;
      var c := order[i];
      assert StoredGroupSum(ps, c) != 0;
    }
  }

  /**
   * The splits rule with the stored amounts checked as well: what the
   * service evidently means by "splits must sum to zero", since it is the
   * stored amounts that the ledger adds up afterwards.
   */
  function ValidateStoredSplits(splits: seq<SplitRequest>): (r: Option<Failure>)
    ensures ValidateSplits(splits).Some? ==> r == ValidateSplits(splits)
    ensures r.None? <==>
      ValidateSplits(splits).None? && forall c :: StoredGroupSum(Postings(splits), c) == 0
    ensures ValidateSplits(splits).None? && r.Some? ==> r.value.Unbalanced?
    ensures r.Some? ==> r == Some(TooFewSplits) || FieldError(r.value) || r.value.Unbalanced?
  {
    var v := ValidateSplits(splits);
    if v.Some? then v
    else
      var ps := Postings(splits);
      var order := GroupOrder(ps);
      StoredCheck(ps, order);
      UnbalancedStoredGroup(order, ps)
  }

  /**
   * How the splits rules fail: too few splits and an unbalanced group
   * are validation errors (422), an unreadable field a bad request (400).
   */
  lemma SplitsFailureKinds(splits: seq<SplitRequest>)
    ensures ValidateStoredSplits(splits).Some? ==>
      var f := ValidateStoredSplits(splits).value;
      Kind(f) == (if f == TooFewSplits || f.Unbalanced? then Validation else BadRequest)
  {
    var r := ValidateStoredSplits(splits);
    if r.Some? {
      assert r.value == TooFewSplits || r.value.Unbalanced? || FieldError(r.value);
      FailureKind(r.value);
    }
  }

  lemma FailureKind(f: Failure)
    requires f == TooFewSplits || f.Unbalanced? || FieldError(f)
    ensures Kind(f) == (if f == TooFewSplits || f.Unbalanced? then Validation else BadRequest)
  {
  }

  // ------------------------------------------------------- column scale

  /** Every amount has at most four fraction digits, so the column holds it exactly. */
  predicate FitsScale(ps: seq<Posting>) {
    forall i :: 0 <= i < |ps| ==> ps[i].amount.scale <= 4
  }

  /** At scale four or less the column value, read in units, is the amount's value. */
  lemma StoredExact(d: Dec)
    requires d.scale <= 4
    ensures Round4(d) as real / 10000.0 == Value(d)
  {
    Round4Exact(d);
    RescaleValue(d.unscaled, d.scale, 4 - d.scale);
    assert Pow10(4) == 10000 by {
      assert Pow10(2) == 100;
    }
  }

  lemma {:induction false} StoredGroupValue(ps: seq<Posting>, c: Currency)
    requires FitsScale(ps)
    ensures StoredGroupSum(ps, c) as real / 10000.0 == Value(GroupSum(ps, c))
  {
    if ps != [] {
      var n := |ps| - 1;
      assert FitsScale(ps[..n]) by {
        forall i | 0 <= i < n
          ensures ps[..n][i].amount.scale <= 4
        {
          assert ps[..n][i] == ps[i];
        }
      }
      StoredGroupValue(ps[..n], c);
      if ps[n].currency == c {
        AddValue(GroupSum(ps[..n], c), ps[n].amount);
        StoredExact(ps[n].amount);
      }
    }
  }

  /** When every amount fits the column's scale the stored check adds nothing. */
  lemma StoredAgrees(splits: seq<SplitRequest>)
    requires AllWellFormed(splits) && FitsScale(Postings(splits))
    ensures ValidateStoredSplits(splits) == ValidateSplits(splits)
  {
    var ps := Postings(splits);
    forall c
      ensures StoredGroupSum(ps, c) == 0 <==> Value(GroupSum(ps, c)) == 0.0
    {
      StoredGroupValue(ps, c);
    }
  }

  /** Three US-dollar splits of 0.00005, 0.00005 and -0.0001 on the accounts `a`, `b` and `c`. */
  function RoundingExample(a: string, b: string, c: string): seq<SplitRequest> {
    [SplitRequest(a, "0.00005", "USD", None, None),
     SplitRequest(b, "0.00005", "USD", None, None),
     SplitRequest(c, "-0.0001", "USD", None, None)]
  }

  lemma FewZeros()
    ensures Zeros(4) == "0000" && Zeros(5) == "00000"
  {
    assert Zeros(1) == "0";
    assert Zeros(2) == "00";
    assert Zeros(3) == "000";
  }

  lemma HalfUnitText()
    ensures PlainString(Dec(5, 5)) == "0.00005"
  {
    assert NatDigits(5) == "5" by {
      assert DigitChar(5) == '5';
    }
    FewZeros();
    var padded := Padded("5", 5);
    assert padded == "000005";
    assert padded[..1] == "0" && padded[1..] == "00005";
  }

  lemma MinusUnitText()
    ensures PlainString(Dec(-1, 4)) == "-0.0001"
  {
    assert NatDigits(1) == "1" by {
      assert DigitChar(1) == '1';
    }
    FewZeros();
    var padded := Padded("1", 4);
    assert padded == "00001";
    assert padded[..1] == "0" && padded[1..] == "0001";
    assert PlainAbs(1, 4) == "0.0001";
  }

  lemma HalfUnitReads()
    ensures ParseDecimal("0.00005") == Some(Dec(5, 5))
  {
    ParsePlain(Dec(5, 5));
    HalfUnitText();
  }

  lemma MinusUnitReads()
    ensures ParseDecimal("-0.0001") == Some(Dec(-1, 4))
  {
    ParsePlain(Dec(-1, 4));
    MinusUnitText();
  }

  /** Three dollar postings of 0.00005, 0.00005 and -0.0001 on the accounts `x`, `y` and `z`. */
  predicate ExamplePostings(ps: seq<Posting>, x: Id, y: Id, z: Id) {
    |ps| == 3
    && ps[0] == Posting(x, Dec(5, 5), USD, None, None)
    && ps[1] == Posting(y, Dec(5, 5), USD, None, None)
    && ps[2] == Posting(z, Dec(-1, 4), USD, None, None)
  }

  lemma ExampleReads(a: string, b: string, c: string)
    requires ParseUuid(a).Some? && ParseUuid(b).Some? && ParseUuid(c).Some?
    ensures AllWellFormed(RoundingExample(a, b, c))
    ensures ExamplePostings(Postings(RoundingExample(a, b, c)), ParseUuid(a).value, ParseUuid(b).value, ParseUuid(c).value)
  {
    HalfUnitReads();
    MinusUnitReads();
    DollarSplit(a, "0.00005", Dec(5, 5));
    DollarSplit(b, "0.00005", Dec(5, 5));
    DollarSplit(c, "-0.0001", Dec(-1, 4));
    ReadThree(RoundingExample(a, b, c));
  }

  lemma DollarSplit(id: string, amount: string, d: Dec)
    requires ParseUuid(id).Some? && ParseDecimal(amount) == Some(d)
    ensures WellFormed(SplitRequest(id, amount, "USD", None, None))
    ensures Read(SplitRequest(id, amount, "USD", None, None)) == Posting(ParseUuid(id).value, d, USD, None, None)
  {
    UsdReads();
  }

  lemma ReadThree(splits: seq<SplitRequest>)
    requires |splits| == 3 && WellFormed(splits[0]) && WellFormed(splits[1]) && WellFormed(splits[2])
    ensures AllWellFormed(splits)
  {
    forall i | 0 <= i < 3
      ensures WellFormed(splits[i])
    {
      assert i == 0 || i == 1 || i == 2;
    }
  }

  lemma UsdReads()
    ensures ReadCurrency("USD") == Some(USD)
  {
  }

  lemma ExampleSums(ps: seq<Posting>, x: Id, y: Id, z: Id)
    requires ExamplePostings(ps, x, y, z)
    ensures GroupOrder(ps) == [USD] && Value(GroupSum(ps, USD)) == 0.0 && StoredGroupSum(ps, USD) == 1
  {
    var p1, p2 := ps[..1], ps[..2];
    assert p2[..1] == p1 && p1[..0] == [] && ps[..2] == p2;
    assert p1[0] == ps[0] && p2[1] == ps[1];
    ExampleOrder(ps, p1, p2);
    ExampleGroupSum(ps, p1, p2);
    ExampleStoredSum(ps, p1, p2);
  }

  lemma ExampleOrder(ps: seq<Posting>, p1: seq<Posting>, p2: seq<Posting>)
    requires |ps| == 3 && ps[..2] == p2 && p2[..1] == p1 && p1[..0] == [] && |p1| == 1 && |p2| == 2
    requires p1[0].currency == USD && p2[1].currency == USD && ps[2].currency == USD
    ensures GroupOrder(ps) == [USD]
  {
    assert GroupOrder(p1) == [USD];
    assert GroupOrder(p2) == [USD];
  }

  lemma ExampleGroupSum(ps: seq<Posting>, p1: seq<Posting>, p2: seq<Posting>)
    requires |ps| == 3 && ps[..2] == p2 && p2[..1] == p1 && p1[..0] == [] && |p1| == 1 && |p2| == 2
    requires p1[0] == ps[0] && p2[1] == ps[1]
    requires ps[0].currency == USD && ps[1].currency == USD && ps[2].currency == USD
    requires ps[0].amount == Dec(5, 5) && ps[1].amount == Dec(5, 5) && ps[2].amount == Dec(-1, 4)
    ensures GroupSum(ps, USD) == Dec(0, 5)
  {
    assert Pow10(1) == 10;
    assert GroupSum(p1, USD) == Dec(5, 5);
    assert GroupSum(p2, USD) == Dec(10, 5);
  }

  lemma ExampleStoredSum(ps: seq<Posting>, p1: seq<Posting>, p2: seq<Posting>)
    requires |ps| == 3 && ps[..2] == p2 && p2[..1] == p1 && p1[..0] == [] && |p1| == 1 && |p2| == 2
    requires p1[0] == ps[0] && p2[1] == ps[1]
    requires ps[0].currency == USD && ps[1].currency == USD && ps[2].currency == USD
    requires ps[0].amount == Dec(5, 5) && ps[1].amount == Dec(5, 5) && ps[2].amount == Dec(-1, 4)
    ensures StoredGroupSum(ps, USD) == 1
  {
    assert Pow10(1) == 10;
    assert Units(ps[0]) == 1 && Units(ps[1]) == 1;
    assert Units(ps[2]) == -1;
    assert StoredGroupSum(p1, USD) == 1;
    assert StoredGroupSum(p2, USD) == 2;
  }

  /** Any request that reads as the three example postings passes the rule and fails the stored check. */
  lemma ImbalanceOf(splits: seq<SplitRequest>, x: Id, y: Id, z: Id)
    requires |splits| == 3 && AllWellFormed(splits)
    requires ExamplePostings(Postings(splits), x, y, z)
    ensures ValidateSplits(splits).None?
    ensures StoredGroupSum(Postings(splits), USD) == 1
    ensures ValidateStoredSplits(splits) == Some(Unbalanced("USD", Dec(1, 4)))
  {
    ExampleSums(Postings(splits), x, y, z);
    OnlyGroup(Postings(splits), USD);
  }

  /** When every posting is in currency `c`, every other group sums to `ZERO`. */
  lemma OnlyGroup(ps: seq<Posting>, c: Currency)
    requires GroupOrder(ps) == [c]
    ensures forall d :: d != c ==> GroupSum(ps, d) == Zero
  {
    forall d | d != c
      ensures GroupSum(ps, d) == Zero
    {
      assert d !in GroupOrder(ps);
      UnusedGroupSum(ps, d);
    }
  }

  /**
   * The service's rule accepts splits whose stored amounts do not
   * balance: 0.00005 is stored as 0.0001, so the three rows of
   * `RoundingExample` add up to 0.0001 dollars, and the stored check
   * rejects them.
   */
  lemma RoundingImbalance(a: string, b: string, c: string)
    requires ParseUuid(a).Some? && ParseUuid(b).Some? && ParseUuid(c).Some?
    ensures ValidateSplits(RoundingExample(a, b, c)).None?
    ensures StoredGroupSum(Postings(RoundingExample(a, b, c)), USD) == 1
    ensures ValidateStoredSplits(RoundingExample(a, b, c)) == Some(Unbalanced("USD", Dec(1, 4)))
  {
    ExampleReads(a, b, c);
    ImbalanceOf(RoundingExample(a, b, c), ParseUuid(a).value, ParseUuid(b).value, ParseUuid(c).value);
  }

  // ------------------------------------------------------------ request

  /**
   * `validateTransaction` with the stored-sum check: a blank description
   * first, then a date `LocalDate.parse` rejects, then the splits.
   */
  function ValidateTransaction(req: CreateTransactionRequest): (r: Option<Failure>)
    ensures IsBlank(req.description) ==> r == Some(BlankDescription)
    ensures !IsBlank(req.description) && ParseDate(req.date).None? ==> r == Some(InvalidDateFormat)
    ensures r.None? <==>
      !IsBlank(req.description) && ParseDate(req.date).Some? && ValidateStoredSplits(req.splits).None?
    ensures r.Some? && r != Some(BlankDescription) && r != Some(InvalidDateFormat) ==>
      r == ValidateStoredSplits(req.splits)
  {
    if IsBlank(req.description) then Some(BlankDescription)
    else if ParseDate(req.date).None? then Some(InvalidDateFormat)
    else ValidateStoredSplits(req.splits)
  }
}
