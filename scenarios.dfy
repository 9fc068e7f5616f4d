/**
 * Worked runs of the ledger, the ones its test suite walks through: each
 * lemma fixes the balance, the operation name and the lines typed, and
 * states the outcome in full (new balance, report, prompt, store calls).
 * The general lemmas come first; the concrete runs only supply the numbers.
 */
module Scenarios {
  import opened Wrappers
  import opened Decimals
  import opened Text
  import opened DecimalText
  import opened Data
  import opened Ledger

  // The operation names as the tests pass them, with the trailing blank
  // of the COBOL `PIC X(6)` field.

  lemma NameTotal()
    ensures OperationName("TOTAL ") == "TOTAL"
  {
    assert "TOTAL "[..5] == "TOTAL";
    StripUntouched("TOTAL");
    assert forall i :: 0 <= i < 5 ==> UpperChar("TOTAL"[i]) == "TOTAL"[i];
  }

  lemma NameCredit()
    ensures OperationName("CREDIT") == "CREDIT"
  {
    StripUntouched("CREDIT");
    assert forall i :: 0 <= i < 6 ==> UpperChar("CREDIT"[i]) == "CREDIT"[i];
  }

  lemma NameDebit()
    ensures OperationName("DEBIT ") == "DEBIT"
  {
    assert "DEBIT "[..5] == "DEBIT";
    StripUntouched("DEBIT");
    assert forall i :: 0 <= i < 5 ==> UpperChar("DEBIT"[i]) == "DEBIT"[i];
  }

  /** A balance inquiry reads the store once and shows what it holds. */
  lemma TotalRun(b: Decimal, entries: seq<string>)
    ensures Execute(b, "TOTAL ", entries) == Outcome(b, CurrentBalance(b), NoPrompt, [Call("read", b)])
  {
    NameTotal();
  }

  /** A credit whose first line typed is accepted. */
  lemma CreditRun(b: Decimal, line: string, a: Decimal)
    requires IsCents(b) && ValidateAmount(line) == Success(a)
    ensures var nb := Decimal(b.digits + a.digits, 2);
      Execute(b, "CREDIT", [line]) ==
        Outcome(nb, Credited(nb), Prompt(Some(a), [], 1), [Call("read", b), Call("write", nb)])
  {
    NameCredit();
    assert Validations([line])[0] == Success(a);
    CentsArithmetic(b, a);
  }

  /** A debit whose first line typed is accepted and covered by the balance. */
  lemma DebitRun(b: Decimal, line: string, a: Decimal)
    requires IsCents(b) && ValidateAmount(line) == Success(a) && a.digits <= b.digits
    ensures var nb := Decimal(b.digits - a.digits, 2);
      Execute(b, "DEBIT ", [line]) ==
        Outcome(nb, Debited(nb), Prompt(Some(a), [], 1), [Call("read", b), Call("write", nb)])
  {
    NameDebit();
    assert Validations([line])[0] == Success(a);
    CentsArithmetic(b, a);
  }

  /** A debit whose first line typed is accepted but larger than the balance. */
  lemma RefusedDebitRun(b: Decimal, line: string, a: Decimal)
    requires IsCents(b) && ValidateAmount(line) == Success(a) && a.digits > b.digits
    ensures Execute(b, "DEBIT ", [line]) == Outcome(b, InsufficientFunds, Prompt(Some(a), [], 1), [Call("read", b)])
  {
    NameDebit();
    assert Validations([line])[0] == Success(a);
    CentsArithmetic(b, a);
  }

  /** A refused line followed by an accepted one. */
  lemma RetryRun(bad: string, e: AmountError, good: string, a: Decimal)
    requires ValidateAmount(bad) == Failure(e) && ValidateAmount(good) == Success(a)
    ensures PromptAmount([bad, good]) == Prompt(Some(a), [e], 2)
  {
    var rs := Validations([bad, good]);
    assert rs[0] == Failure(e) && rs[1] == Success(a);
    FirstAcceptedStep(rs, 0);
    FirstAcceptedStep(rs, 1);
  }

  // The lines typed in the tests.  A number is typed the way the ledger
  // shows it: `Render(Decimal(25050, 2))` is the line "250.50".

  /** Typing an acceptable amount as the ledger shows it gives back that amount. */
  lemma ReadsShown(a: Decimal)
    requires IsAcceptedAmount(a)
    ensures ValidateAmount(Render(a)) == Success(a)
  {
    ParseRender(a);
    CheckAcceptsCents(a);
  }

  /** Typing a negative amount as the ledger shows it is refused as negative. */
  lemma RefusesShownNegative(a: Decimal)
    requires a.digits < 0
    ensures ValidateAmount(Render(a)) == Failure(Negative)
  {
    ParseRender(a);
    LessThanZero(a);
  }

  /** Typing a whole-cent amount above 999999.99 as the ledger shows it is refused as too large. */
  lemma RefusesShownLarge(a: Decimal)
    requires IsCents(a) && a.digits > MaxAmount.digits
    ensures ValidateAmount(Render(a)) == Failure(ExceedsMaximum)
  {
    ParseRender(a);
  }

  /** "123.456" is accepted, rounded half-up to 123.46. */
  lemma Reads123_456()
    ensures ValidateAmount(Render(Decimal(123456, 3))) == Success(Decimal(12346, 2))
  {
    ParseRender(Decimal(123456, 3));
    assert QuantizeCents(Decimal(123456, 3)) == Decimal(12346, 2);
  }

  /** "0" is accepted, as 0.00. */
  lemma ReadsZero()
    ensures ValidateAmount(Render(Decimal(0, 0))) == Success(Decimal(0, 2))
  {
    ParseRender(Decimal(0, 0));
    assert QuantizeCents(Decimal(0, 0)) == Decimal(0, 2);
  }

  lemma RefusesInvalid()
    ensures ValidateAmount("invalid") == Failure(InvalidFormat)
  {
    ParseRejectsLeading("invalid");
  }

  /** The opening balance is shown as "1000.00". */
  lemma ShowsInitialBalance()
    ensures Render(InitialBalance) == "1000.00"
  {
    Spells100000();
    RenderSplit(InitialBalance, "1000", "00");
  }

  // The lines the test suite types, as the decimals they print from.

  lemma Shows250_50()
    ensures Render(Decimal(25050, 2)) == "250.50"
  {
    Spells25050();
    RenderSplit(Decimal(25050, 2), "250", "50");
  }

  lemma Shows100_50()
    ensures Render(Decimal(10050, 2)) == "100.50"
  {
    Spells10050();
    RenderSplit(Decimal(10050, 2), "100", "50");
  }

  lemma Shows9999999_99()
    ensures Render(Decimal(999999999, 2)) == "9999999.99"
  {
    Spells999999999();
    RenderSplit(Decimal(999999999, 2), "9999999", "99");
  }

  lemma Shows123_456()
    ensures Render(Decimal(123456, 3)) == "123.456"
  {
    Spells123456();
    RenderSplit(Decimal(123456, 3), "123", "456");
  }

  // The digit strings behind those lines, and how they join around the point.

  lemma Spells100000()
    ensures NatDigits(100000) == "1000" + "00" && "1000" + "." + "00" == "1000.00"
  {
    assert NatDigits(100000) == "100000";
  }

  lemma Spells25050()
    ensures NatDigits(25050) == "250" + "50" && "250" + "." + "50" == "250.50"
  {
    assert NatDigits(25050) == "25050";
  }

  lemma Spells10050()
    ensures NatDigits(10050) == "100" + "50" && "100" + "." + "50" == "100.50"
  {
    assert NatDigits(10050) == "10050";
  }

  lemma Spells999999999()
    ensures NatDigits(999999999) == "9999999" + "99" && "9999999" + "." + "99" == "9999999.99"
  {
    SevenNines();
    assert NatDigits(99999999) == "99999999";
    assert NatDigits(999999999) == "999999999";
  }

  lemma SevenNines()
    ensures NatDigits(9999999) == "9999999"
  {
    assert NatDigits(9999) == "9999";
    assert NatDigits(999999) == "999999";
  }

  lemma Spells123456()
    ensures NatDigits(123456) == "123" + "456" && "123" + "." + "456" == "123.456"
  {
    assert NatDigits(123) == "123";
    assert NatDigits(12345) == "12345";
    assert NatDigits(123456) == "123456";
  }

  lemma ShowsMinus100()
    ensures Render(Decimal(-100, 0)) == "-100"
  {
    assert NatDigits(100) == "100";
  }

  lemma ShowsZero()
    ensures Render(Decimal(0, 0)) == "0"
  {
    assert NatDigits(0) == "0";
  }

  // The runs.

  /** `_format_currency` rounds 123.456 up to 123.46 and 123.454 down to 123.45. */
  lemma FormatCurrencyExamples()
    ensures QuantizeCents(Decimal(123456, 3)) == Decimal(12346, 2)
    ensures QuantizeCents(Decimal(123454, 3)) == Decimal(12345, 2)
  {
  }

  /** A tie goes away from zero: 0.005 to 0.01, -0.005 to -0.01, 123.455 to 123.46. */
  lemma HalfUpTieExamples()
    ensures QuantizeCents(Decimal(5, 3)) == Decimal(1, 2)
    ensures QuantizeCents(Decimal(-5, 3)) == Decimal(-1, 2)
    ensures QuantizeCents(Decimal(123455, 3)) == Decimal(12346, 2)
  {
    assert RoundMagnitude(5, 10) == 1;
    assert RoundMagnitude(123455, 10) == 12346;
  }

  /**
   * The bounds are checked before rounding: -0.001 is refused as negative
   * though it rounds to 0.00, and 999999.994 is refused as too large
   * though it rounds to 999999.99.
   */
  lemma UnroundedBoundsExamples()
    ensures CheckAmount(Decimal(-1, 3)) == Failure(Negative) && QuantizeCents(Decimal(-1, 3)) == Decimal(0, 2)
    ensures CheckAmount(Decimal(999999994, 3)) == Failure(ExceedsMaximum) && QuantizeCents(Decimal(999999994, 3)) == MaxAmount
  {
    LessThanZero(Decimal(-1, 3));
    assert RoundMagnitude(1, 10) == 0;
    assert RoundMagnitude(999999994, 10) == 99999999;
  }

  /** A new ledger reads the store once and shows 1000.00. */
  lemma InitialInquiry()
    ensures Execute(InitialBalance, "TOTAL ", []) ==
      Outcome(InitialBalance, CurrentBalance(InitialBalance), NoPrompt, [Call("read", InitialBalance)])
  {
    TotalRun(InitialBalance, []);
  }

  /** Crediting 250.50 to 1000.00 reads 1000.00 and writes 1250.50. */
  lemma CreditExample()
    ensures var a, nb := Decimal(25050, 2), Decimal(125050, 2);
      Execute(InitialBalance, "CREDIT", [Render(a)]) ==
        Outcome(nb, Credited(nb), Prompt(Some(a), [], 1), [Call("read", InitialBalance), Call("write", nb)])
  {
    ReadsShown(Decimal(25050, 2));
    CreditRun(InitialBalance, Render(Decimal(25050, 2)), Decimal(25050, 2));
  }

  /** Crediting "0" still reads and writes, and leaves 1000.00. */
  lemma ZeroCreditExample()
    ensures Execute(InitialBalance, "CREDIT", [Render(Decimal(0, 0))]) ==
      Outcome(InitialBalance, Credited(InitialBalance), Prompt(Some(Decimal(0, 2)), [], 1),
              [Call("read", InitialBalance), Call("write", InitialBalance)])
  {
    ReadsZero();
    CreditRun(InitialBalance, Render(Decimal(0, 0)), Decimal(0, 2));
  }

  /** Crediting the largest amount is not capped: 1000.00 becomes 1000999.99. */
  lemma LargestCreditExample()
    ensures Execute(InitialBalance, "CREDIT", [Render(MaxAmount)]).balance == Decimal(100099999, 2)
  {
    ReadsShown(MaxAmount);
    CreditRun(InitialBalance, Render(MaxAmount), MaxAmount);
  }

  /** Debiting 200.00 from 1000.00 reads 1000.00 and writes 800.00. */
  lemma DebitExample()
    ensures var a, nb := Decimal(20000, 2), Decimal(80000, 2);
      Execute(InitialBalance, "DEBIT ", [Render(a)]) ==
        Outcome(nb, Debited(nb), Prompt(Some(a), [], 1), [Call("read", InitialBalance), Call("write", nb)])
  {
    ReadsShown(Decimal(20000, 2));
    DebitRun(InitialBalance, Render(Decimal(20000, 2)), Decimal(20000, 2));
  }

  /** Debiting the whole balance, 1000.00, leaves 0.00. */
  lemma ExactDebitExample()
    ensures Execute(InitialBalance, "DEBIT ", [Render(InitialBalance)]).balance == Decimal(0, 2)
  {
    ReadsShown(InitialBalance);
    DebitRun(InitialBalance, Render(InitialBalance), InitialBalance);
  }

  /** Debiting 1500.00 from 1000.00 is refused after one read, and nothing is written. */
  lemma InsufficientExample()
    ensures var a := Decimal(150000, 2);
      Execute(InitialBalance, "DEBIT ", [Render(a)]) ==
        Outcome(InitialBalance, InsufficientFunds, Prompt(Some(a), [], 1), [Call("read", InitialBalance)])
  {
    ReadsShown(Decimal(150000, 2));
    RefusedDebitRun(InitialBalance, Render(Decimal(150000, 2)), Decimal(150000, 2));
  }

  /** Debiting 100.01 from 100.00 is refused. */
  lemma OneCentShortExample()
    ensures Execute(Decimal(10000, 2), "DEBIT ", [Render(Decimal(10001, 2))]).report == InsufficientFunds
  {
    ReadsShown(Decimal(10001, 2));
    RefusedDebitRun(Decimal(10000, 2), Render(Decimal(10001, 2)), Decimal(10001, 2));
  }

  /** "invalid", "-100" or "9999999.99" is refused, and the next line, "100.50", is taken. */
  lemma RetryExamples()
    ensures var good, a := Render(Decimal(10050, 2)), Decimal(10050, 2);
      && PromptAmount(["invalid", good]) == Prompt(Some(a), [InvalidFormat], 2)
      && PromptAmount([Render(Decimal(-100, 0)), good]) == Prompt(Some(a), [Negative], 2)
      && PromptAmount([Render(Decimal(999999999, 2)), good]) == Prompt(Some(a), [ExceedsMaximum], 2)
  {
    var good, a := Render(Decimal(10050, 2)), Decimal(10050, 2);
    ReadsShown(a);
    RefusesInvalid();
    RetryRun("invalid", InvalidFormat, good, a);
    RefusesShownNegative(Decimal(-100, 0));
    RetryRun(Render(Decimal(-100, 0)), Negative, good, a);
    RefusesShownLarge(Decimal(999999999, 2));
    RetryRun(Render(Decimal(999999999, 2)), ExceedsMaximum, good, a);
  }

  /** Crediting 123.456 credits 123.46: 1000.00 becomes 1123.46. */
  lemma PrecisionExample()
    ensures Execute(InitialBalance, "CREDIT", [Render(Decimal(123456, 3))]).balance == Decimal(112346, 2)
  {
    Reads123_456();
    CreditRun(InitialBalance, Render(Decimal(123456, 3)), Decimal(12346, 2));
  }

  /** Credit 500.25, then debit 150.75: 1000.00, 1500.25, 1349.50. */
  lemma SequenceExample()
    ensures var o1 := Execute(InitialBalance, "CREDIT", [Render(Decimal(50025, 2))]);
      var o2 := Execute(o1.balance, "DEBIT ", [Render(Decimal(15075, 2))]);
      && o1.report == Credited(Decimal(150025, 2))
      && o2.report == Debited(Decimal(134950, 2))
      && Execute(o2.balance, "TOTAL ", []).report == CurrentBalance(Decimal(134950, 2))
  {
    ReadsShown(Decimal(50025, 2));
    CreditRun(InitialBalance, Render(Decimal(50025, 2)), Decimal(50025, 2));
    ReadsShown(Decimal(15075, 2));
    DebitRun(Decimal(150025, 2), Render(Decimal(15075, 2)), Decimal(15075, 2));
    TotalRun(Decimal(134950, 2), []);
  }

  /**
   * The same sequence on a new `Operations` object and its store: the
   * reports are those of the runs above, in order.
   */
  method SequenceRun() returns (r1: Report, r2: Report, r3: Report, r4: Report)
    ensures r1 == CurrentBalance(InitialBalance)
    ensures r2 == Credited(Decimal(150025, 2))
    ensures r3 == Debited(Decimal(134950, 2))
    ensures r4 == CurrentBalance(Decimal(134950, 2))
  {
    var ops := new Operations();
    var prompt;
    InitialInquiry();
    r1, prompt := ops.ExecuteOperation("TOTAL ", []);
    SequenceExample();
    r2, prompt := ops.ExecuteOperation("CREDIT", [Render(Decimal(50025, 2))]);
    r3, prompt := ops.ExecuteOperation("DEBIT ", [Render(Decimal(15075, 2))]);
    r4, prompt := ops.ExecuteOperation("TOTAL ", []);
  }

  /**
   * The store on its own: a write of 1000.567 stores and returns 1000.57,
   * a read then returns it whatever balance it is passed, and an unknown
   * name hands its balance straight back.
   */
  method StoreRun() returns (written: Decimal, read: Decimal, unknown: Decimal)
    ensures written == Decimal(100057, 2) && read == written
    ensures unknown == InitialBalance
  {
    var store := new DataProgram();
    written, read := ReadAfterWrite(store, Decimal(1000567, 3), Decimal(0, 2));
    assert RoundMagnitude(1000567, 10) == 100057;
    assert Lower("INVALID") == "invalid" by {
      assert forall i :: 0 <= i < 7 ==> LowerChar("INVALID"[i]) == "invalid"[i];
    }
    StripUntouched("invalid");
    unknown := store.ExecuteOperation("INVALID", InitialBalance);
  }
}
