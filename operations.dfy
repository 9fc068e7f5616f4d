/**
 * operations.py: `Operations`, the ledger's business logic (the COBOL
 * program Operations).  It takes an operation name, asks for an amount
 * where one is needed, and reads and writes the balance through its
 * DataProgram store.
 *
 * The keyboard is modelled as the finite sequence of lines the user types
 * for one operation; printed messages become a Report value.
 */
module Ledger {
  import opened Wrappers
  import opened Decimals
  import opened Text
  import opened DecimalText
  import opened Data

  /** Why a typed amount was turned down; each one makes the prompt ask again. */
  datatype AmountError = InvalidFormat | Negative | ExceedsMaximum

  /** 999999.99, the most a `PIC 9(6)V99` field holds. */
  const MaxAmount := Decimal(99999999, 2)

  const Zero := Decimal(0, 0)

  /** An amount the prompt can hand back: whole cents from 0.00 to 999999.99. */
  predicate IsAcceptedAmount(a: Decimal)
  {
    IsCents(a) && 0 <= a.digits <= MaxAmount.digits
  }

  /**
   * The checks of `_get_amount_input` on a parsed amount: refuse a negative
   * amount, then an amount above the maximum, else round it half-up to
   * cents.  The bounds are checked on the unrounded amount.
   */
  function CheckAmount(a: Decimal): (r: Result<Decimal, AmountError>)
    ensures r.Success? ==> IsAcceptedAmount(r.value)
  {
    if Less(a, Zero) then Failure(Negative)
    else if Less(MaxAmount, a) then Failure(ExceedsMaximum)
    else
      LessThanZero(a);
      CompareWithCents(a, 0);
      QuantizeWithin(a, 0, MaxAmount.digits);
      Success(QuantizeCents(a))
  }

  /**
   * What the checks decide, in terms of the amount's value: below zero is
   * refused as negative, above 999999.99 as too large, and anything else
   * is accepted, rounded half-up to cents.
   */
  lemma CheckAmountMeaning(a: Decimal)
    ensures CheckAmount(a) == Failure(Negative) <==> Value(a) < 0.0
    ensures CheckAmount(a) == Failure(ExceedsMaximum) <==> Value(a) > 999999.99
    ensures CheckAmount(a).Success? <==> 0.0 <= Value(a) <= 999999.99
    ensures CheckAmount(a).Success? ==> RoundsHalfUp(a, CheckAmount(a).value.digits)
  {
    LessValue(a, Zero);
    LessValue(MaxAmount, a);
    assert Value(Zero) == 0.0;
    assert Value(MaxAmount) == 999999.99;
  }

  /** An amount already in whole cents and in range passes the checks unchanged. */
  lemma CheckAcceptsCents(a: Decimal)
    requires IsAcceptedAmount(a)
    ensures CheckAmount(a) == Success(a)
  {
    QuantizeWholeCents(a);
  }

  /** One pass of the loop in `_get_amount_input`: parse the line, then check it. */
  function ValidateAmount(entry: string): (r: Result<Decimal, AmountError>)
    ensures r.Success? ==> IsAcceptedAmount(r.value)
  {
    match ParseDecimal(entry)
    case None => Failure(InvalidFormat)
    case Some(a) => CheckAmount(a)
  }

  /**
   * A line is refused as badly formed exactly when it is not a numeral,
   * and the number a numeral spells goes on to the checks.
   */
  lemma ValidateAmountMeaning(entry: string)
    ensures ValidateAmount(entry) == Failure(InvalidFormat) <==> !IsNumeral(entry)
    ensures IsNumeral(entry) ==> ValidateAmount(entry) == CheckAmount(ParseDecimal(entry).value)
  {
    ParseAcceptsNumerals(entry);
  }

  /**
   * The result of prompting for an amount: the amount accepted, if any,
   * the reasons each earlier line was refused, and how many lines were read.
   */
  datatype Prompt = Prompt(amount: Option<Decimal>, rejected: seq<AmountError>, consumed: nat)

  /** The prompt of an operation that asks for no amount. */
  const NoPrompt := Prompt(None, [], 0)

  /** The outcome of validating each line typed, in order. */
  function Validations(entries: seq<string>): (rs: seq<Result<Decimal, AmountError>>)
    ensures |rs| == |entries|
  {
    seq(|entries|, k requires 0 <= k < |entries| => ValidateAmount(entries[k]))
  }

  /**
   * The loop of `_get_amount_input` over the validation outcomes, from
   * line i on: the first line that validates gives the amount; the lines
   * before it are refused.  If the lines run out first there is no
   * amount.  `consumed` counts lines from the start.
   */
  function FirstAccepted(results: seq<Result<Decimal, AmountError>>, i: nat): Prompt
    requires i <= |results|
    decreases |results| - i
  {
    if i == |results| then
      Prompt(None, [], i)
    else
      match results[i]
      case Success(a) => Prompt(Some(a), [], i + 1)
      case Failure(e) =>
        var rest := FirstAccepted(results, i + 1);
        Prompt(rest.amount, [e] + rest.rejected, rest.consumed)
  }

  /**
   * From line i, the loop reads lines up to and including the first
   * accepted one, or all of them if none is, and hands back that line's
   * amount.
   */
  lemma {:induction false} FirstAcceptedTakes(results: seq<Result<Decimal, AmountError>>, i: nat)
    requires i <= |results|
    ensures var p := FirstAccepted(results, i);
      && i <= p.consumed <= |results|
      && |p.rejected| == p.consumed - i - (if p.amount.Some? then 1 else 0)
      && (p.amount.Some? ==> p.consumed > i && results[p.consumed - 1] == Success(p.amount.value))
      && (p.amount.None? ==> p.consumed == |results|)
    decreases |results| - i
  {
    if i < |results| && results[i].Failure? {
      FirstAcceptedTakes(results, i + 1);
    }
  }

  /** From line i, every refused line is reported, in order, with its reason. */
  lemma {:induction false} FirstAcceptedRejects(results: seq<Result<Decimal, AmountError>>, i: nat)
    requires i <= |results|
    ensures var p := FirstAccepted(results, i);
      && i + |p.rejected| <= |results|
      && forall k :: i <= k < i + |p.rejected| ==> results[k] == Failure(p.rejected[k - i])
    decreases |results| - i
  {
    if i < |results| && results[i].Failure? {
      FirstAcceptedRejects(results, i + 1);
      var p, rest := FirstAccepted(results, i), FirstAccepted(results, i + 1);
      assert p.rejected == [results[i].error] + rest.rejected;
      forall k | i <= k < i + |p.rejected|
        ensures results[k] == Failure(p.rejected[k - i])
      {
        if k > i {
          assert p.rejected[k - i] == rest.rejected[k - (i + 1)];
        }
      }
    } else {
      assert FirstAccepted(results, i).rejected == [];
    }
  }

  /** The prompt after the lines refused so far, carried on by the rest. */
  function Resume(rejected: seq<AmountError>, rest: Prompt): Prompt
  {
    Prompt(rest.amount, rejected + rest.rejected, rest.consumed)
  }

  /** A refusal can be counted with the earlier ones or with the later ones. */
  lemma ResumeRefused(rejected: seq<AmountError>, e: AmountError, rest: Prompt)
    ensures Resume(rejected, Prompt(rest.amount, [e] + rest.rejected, rest.consumed)) == Resume(rejected + [e], rest)
  {
    assert rejected + ([e] + rest.rejected) == (rejected + [e]) + rest.rejected;
  }

  /** One turn of the loop: line i is either taken or refused before the rest. */
  lemma FirstAcceptedStep(results: seq<Result<Decimal, AmountError>>, i: nat)
    requires i < |results|
    ensures results[i].Success? ==> FirstAccepted(results, i) == Prompt(Some(results[i].value), [], i + 1)
    ensures results[i].Failure? ==>
      var rest := FirstAccepted(results, i + 1);
      FirstAccepted(results, i) == Prompt(rest.amount, [results[i].error] + rest.rejected, rest.consumed)
  {
  }

  lemma ValidationAt(entries: seq<string>, i: nat)
    requires i < |entries|
    ensures Validations(entries)[i] == ValidateAmount(entries[i])
  {
  }

  /** The loop stops at an accepted line i with the refusals read before it. */
  lemma AcceptedHere(results: seq<Result<Decimal, AmountError>>, i: nat, rejected: seq<AmountError>)
    requires i < |results| && results[i].Success?
    requires FirstAccepted(results, 0) == Resume(rejected, FirstAccepted(results, i))
    ensures FirstAccepted(results, 0) == Prompt(Some(results[i].value), rejected, i + 1)
  {
    FirstAcceptedStep(results, i);
    assert rejected + [] == rejected;
  }

  /** A refused line i joins the refusals and the loop goes on from i + 1. */
  lemma RefusedHere(results: seq<Result<Decimal, AmountError>>, i: nat, rejected: seq<AmountError>)
    requires i < |results| && results[i].Failure?
    requires FirstAccepted(results, 0) == Resume(rejected, FirstAccepted(results, i))
    ensures FirstAccepted(results, 0) == Resume(rejected + [results[i].error], FirstAccepted(results, i + 1))
  {
    FirstAcceptedStep(results, i);
    ResumeRefused(rejected, results[i].error, FirstAccepted(results, i + 1));
  }

  /** When the lines run out there is no amount and every line was refused. */
  lemma RanOut(results: seq<Result<Decimal, AmountError>>, rejected: seq<AmountError>)
    requires FirstAccepted(results, 0) == Resume(rejected, FirstAccepted(results, |results|))
    ensures FirstAccepted(results, 0) == Prompt(None, rejected, |results|)
  {
    assert rejected + [] == rejected;
  }

  /** `_get_amount_input` over the lines typed. */
  function PromptAmount(entries: seq<string>): (p: Prompt)
    ensures p.amount.Some? ==> IsAcceptedAmount(p.amount.value)
  {
    FirstAcceptedTakes(Validations(entries), 0);
    FirstAccepted(Validations(entries), 0)
  }

  /**
   * The prompt reads lines up to and including the first acceptable one,
   * or all of them if none is, takes that line's amount, and reports every
   * refused line's reason in order.
   */
  lemma PromptAmountSpec(entries: seq<string>)
    ensures var p := PromptAmount(entries);
      && p.consumed <= |entries|
      && |p.rejected| == p.consumed - (if p.amount.Some? then 1 else 0)
      && (forall i :: 0 <= i < |p.rejected| ==> ValidateAmount(entries[i]) == Failure(p.rejected[i]))
      && (p.amount.Some? ==>
            p.consumed >= 1 && ValidateAmount(entries[p.consumed - 1]) == Success(p.amount.value))
      && (p.amount.None? ==> p.consumed == |entries|)
  {
    var results := Validations(entries);
    var p := PromptAmount(entries);
    assert p == FirstAccepted(results, 0);
    FirstAcceptedTakes(results, 0);
    if p.amount.Some? {
      ValidationAt(entries, p.consumed - 1);
    }
    PromptAmountRejects(entries);
  }

  lemma PromptAmountRejects(entries: seq<string>)
    ensures var p := PromptAmount(entries);
      && |p.rejected| <= |entries|
      && forall i :: 0 <= i < |p.rejected| ==> ValidateAmount(entries[i]) == Failure(p.rejected[i])
  {
    var p := PromptAmount(entries);
    RejectedCount(entries);
    forall i | 0 <= i < |p.rejected|
      ensures ValidateAmount(entries[i]) == Failure(p.rejected[i])
    {
      RejectedLine(entries, i);
    }
  }

  lemma RejectedCount(entries: seq<string>)
    ensures |PromptAmount(entries).rejected| <= |entries|
  {
    var results := Validations(entries);
    assert PromptAmount(entries) == FirstAccepted(results, 0);
    FirstAcceptedRejects(results, 0);
  }

  lemma RejectedLine(entries: seq<string>, i: nat)
    requires i < |PromptAmount(entries).rejected|
    ensures i < |entries| && ValidateAmount(entries[i]) == Failure(PromptAmount(entries).rejected[i])
  {
    var results := Validations(entries);
    var p := PromptAmount(entries);
    assert p == FirstAccepted(results, 0);
    FirstAcceptedRejects(results, 0);
    ValidationAt(entries, i);
    assert results[i] == Failure(p.rejected[i - 0]);
  }

  /** Adding or subtracting two whole-cent amounts needs no rounding. */
  lemma CentsArithmetic(b: Decimal, a: Decimal)
    requires IsCents(b) && IsCents(a)
    ensures QuantizeCents(Add(b, a)) == Decimal(b.digits + a.digits, 2)
    ensures QuantizeCents(Sub(b, a)) == Decimal(b.digits - a.digits, 2)
    ensures AtMost(a, b) <==> a.digits <= b.digits
  {
    AddCents(b, a);
    QuantizeWholeCents(Add(b, a));
    QuantizeWholeCents(Sub(b, a));
    LessCents(b, a);
  }

  /** What an operation shows the user, in place of the printed line. */
  datatype Report =
    | CurrentBalance(balance: Decimal)
    | Credited(balance: Decimal)
    | Debited(balance: Decimal)
    | InsufficientFunds
    | UnknownOperation(name: string)
    /** The input ended while an amount was asked for: the error line of `execute_operation`. */
    | InputEnded(name: string)

  /**
   * An operation's effect: the balance after it, its report, the prompt,
   * and the calls it made on the store, in order.
   */
  datatype Outcome = Outcome(balance: Decimal, report: Report, prompt: Prompt, calls: seq<Call>)

  /** `_handle_total_operation` on a ledger holding balance b. */
  function Total(b: Decimal): Outcome
  {
    Outcome(b, CurrentBalance(b), NoPrompt, [Call("read", b)])
  }

  /**
   * `_handle_credit_operation`, once the prompt has given p: read, add the
   * amount, round, write.
   */
  function Credit(b: Decimal, p: Prompt): Outcome
  {
    match p.amount
    case None => Outcome(b, InputEnded("CREDIT"), p, [])
    case Some(a) =>
      var nb := QuantizeCents(Add(b, a));
      Outcome(nb, Credited(nb), p, [Call("read", b), Call("write", nb)])
  }

  /**
   * `_handle_debit_operation`, once the prompt has given p: read, and
   * subtract and write only if the balance covers the amount.
   */
  function Debit(b: Decimal, p: Prompt): Outcome
  {
    match p.amount
    case None => Outcome(b, InputEnded("DEBIT"), p, [])
    case Some(a) =>
      if AtMost(a, b) then
        var nb := QuantizeCents(Sub(b, a));
        Outcome(nb, Debited(nb), p, [Call("read", b), Call("write", nb)])
      else
        Outcome(b, InsufficientFunds, p, [Call("read", b)])
  }

  /** The operation name as `execute_operation` matches it. */
  function OperationName(passed: string): string
  {
    Upper(Strip(passed))
  }

  /** `execute_operation`: normalise the name, then dispatch on it. */
  function Execute(b: Decimal, passed: string, entries: seq<string>): Outcome
  {
    var name := OperationName(passed);
    if name == "TOTAL" then Total(b)
    else if name == "CREDIT" then Credit(b, PromptAmount(entries))
    else if name == "DEBIT" then Debit(b, PromptAmount(entries))
    else Outcome(b, UnknownOperation(name), NoPrompt, [])
  }

  /** A balance the ledger can hold: whole cents, never below zero. */
  predicate IsLedgerBalance(b: Decimal)
  {
    IsCents(b) && b.digits >= 0
  }

  /**
   * Every operation keeps the balance a whole, non-negative number of
   * cents; and when it changes the balance it read the old one first and
   * wrote the new one last.
   */
  lemma ExecuteKeepsLedger(b: Decimal, passed: string, entries: seq<string>)
    requires IsLedgerBalance(b)
    ensures var o := Execute(b, passed, entries);
      && IsLedgerBalance(o.balance)
      && (o.balance != b ==> o.calls == [Call("read", b), Call("write", o.balance)])
      && (o.calls != [] ==> o.calls[0] == Call("read", b))
  {
    var p := PromptAmount(entries);
    PromptAmountSpec(entries);
    if p.amount.Some? {
      var a := p.amount.value;
      AddCents(b, a);
      QuantizeWholeCents(Add(b, a));
      QuantizeWholeCents(Sub(b, a));
      LessCents(b, a);
    }
  }

  /**
   * A credit adds the accepted amount exactly, with no upper limit on the
   * new balance, and makes one read and one write.
   */
  lemma CreditAdds(b: Decimal, entries: seq<string>)
    requires IsCents(b) && PromptAmount(entries).amount.Some?
    ensures var a, o := PromptAmount(entries).amount.value, Credit(b, PromptAmount(entries));
      && o.balance == Decimal(b.digits + a.digits, 2)
      && Value(o.balance) == Value(b) + Value(a)
      && o.report == Credited(o.balance)
      && o.calls == [Call("read", b), Call("write", o.balance)]
  {
    var a := PromptAmount(entries).amount.value;
    PromptAmountSpec(entries);
    AddCents(b, a);
    QuantizeWholeCents(Add(b, a));
    AddValue(b, a);
  }

  /**
   * A debit the balance covers subtracts the amount exactly; one it does
   * not cover leaves the balance as it was and only reads the store.
   */
  lemma DebitSubtractsOrRefuses(b: Decimal, entries: seq<string>)
    requires IsCents(b) && PromptAmount(entries).amount.Some?
    ensures var a, o := PromptAmount(entries).amount.value, Debit(b, PromptAmount(entries));
      && (a.digits <= b.digits ==>
            && o.balance == Decimal(b.digits - a.digits, 2)
            && Value(o.balance) == Value(b) - Value(a)
            && o.report == Debited(o.balance)
            && o.calls == [Call("read", b), Call("write", o.balance)])
      && (a.digits > b.digits ==>
            o.balance == b && o.report == InsufficientFunds && o.calls == [Call("read", b)])
  {
    var a := PromptAmount(entries).amount.value;
    PromptAmountSpec(entries);
    AddCents(b, a);
    QuantizeWholeCents(Sub(b, a));
    SubValue(b, a);
    LessCents(b, a);
  }

  /**
   * A balance inquiry, an unknown name, and an operation whose input ends
   * before an amount is accepted all leave the balance alone and write nothing.
   */
  lemma ExecuteKeepsBalance(b: Decimal, passed: string, entries: seq<string>)
    ensures var name, o := OperationName(passed), Execute(b, passed, entries);
      && (name == "TOTAL" ==> o.balance == b && o.report == CurrentBalance(b) && o.calls == [Call("read", b)])
      && (name != "TOTAL" && name != "CREDIT" && name != "DEBIT" ==>
            o == Outcome(b, UnknownOperation(name), NoPrompt, []))
      && ((name == "CREDIT" || name == "DEBIT") && PromptAmount(entries).amount.None? ==>
            o.balance == b && o.report == InputEnded(name) && o.calls == []
            && o.prompt.consumed == |entries|)
  {
    PromptAmountSpec(entries);
  }

  /**
   * The name is matched after stripping and upper-casing, so a name and
   * its normal form, or its lower-case form, select the same operation.
   */
  lemma ExecuteNormalisesName(b: Decimal, passed: string, entries: seq<string>)
    ensures Execute(b, OperationName(passed), entries) == Execute(b, passed, entries)
    ensures Execute(b, Lower(passed), entries) == Execute(b, passed, entries)
  {
    var s := Strip(passed);
    StripUpper(s);
    StripIdempotent(passed);
    UpperAbsorbs(s);
    assert OperationName(OperationName(passed)) == OperationName(passed);
    StripUpper(passed);
    assert OperationName(Lower(passed)) == OperationName(passed);
  }

  /** The name the store keeps after a run of calls: that of the last call, if any. */
  function StoreName(before: string, calls: seq<Call>): string
  {
    if calls == [] then before else Strip(Lower(calls[|calls| - 1].operation))
  }

  class Operations {
    var operationType: string
    var amount: Decimal
    var finalBalance: Decimal
    const dataProgram: DataProgram

    /**
     * The ledger's invariant: the working balance is the stored one, a
     * whole non-negative number of cents, and the last amount is one the
     * prompt could accept.
     */
    ghost predicate Valid()
      reads this, dataProgram
    {
      && dataProgram.Valid()
      && finalBalance == dataProgram.storageBalance
      && IsLedgerBalance(finalBalance)
      && IsAcceptedAmount(amount)
    }

    /**
     * The fields after an operation with outcome o, given the store's log
     * and name and the amount before it.
     */
    ghost predicate Reflects(o: Outcome, calls: seq<Call>, storeName: string, lastAmount: Decimal)
      reads this, dataProgram
    {
      && finalBalance == o.balance
      && dataProgram.calls == calls + o.calls
      && dataProgram.operationType == StoreName(storeName, o.calls)
      && amount == (if o.prompt.amount.Some? then o.prompt.amount.value else lastAmount)
    }

    constructor ()
      ensures Valid() && fresh(dataProgram)
      ensures operationType == "" && amount == Decimal(0, 2) && finalBalance == InitialBalance
      ensures dataProgram.storageBalance == InitialBalance && dataProgram.operationType == "" && dataProgram.calls == []
    {
      operationType := "";
      amount := Decimal(0, 2);
      finalBalance := InitialBalance;
      dataProgram := new DataProgram();
    }

    /** `_get_amount_input`: ask until a line validates or the lines run out. */
    method GetAmountInput(entries: seq<string>) returns (p: Prompt)
      ensures p == PromptAmount(entries)
    {
      ghost var results := Validations(entries);
      var i := 0;
      var rejected: seq<AmountError> := [];
      while i < |entries|
        invariant 0 <= i <= |entries|
        invariant FirstAccepted(results, 0) == Resume(rejected, FirstAccepted(results, i))
      {
        var r := ValidateAmount(entries[i]);
        ValidationAt(entries, i);
        if r.Success? {
          AcceptedHere(results, i, rejected);
          return Prompt(Some(r.value), rejected, i + 1);
        }
        RefusedHere(results, i, rejected);
        rejected := rejected + [r.error];
        i := i + 1;
      }
      RanOut(results, rejected);
      p := Prompt(None, rejected, i);
    }

    method HandleTotal() returns (report: Report)
      requires Valid()
      modifies this`finalBalance, dataProgram
      ensures Valid() && unchanged(this`operationType, this`amount)
      ensures var o := Total(old(finalBalance));
        Reflects(o, old(dataProgram.calls), old(dataProgram.operationType), old(amount)) && report == o.report
    {
      StoreOperationNames();
      finalBalance := dataProgram.ExecuteOperation("read", finalBalance);
      report := CurrentBalance(finalBalance);
    }

    method HandleCredit(entries: seq<string>) returns (report: Report, prompt: Prompt)
      requires Valid()
      modifies this`finalBalance, this`amount, dataProgram
      ensures Valid() && unchanged(this`operationType)
      ensures prompt == PromptAmount(entries)
      ensures var o := Credit(old(finalBalance), prompt);
        Reflects(o, old(dataProgram.calls), old(dataProgram.operationType), old(amount)) && report == o.report
    {
      prompt := GetAmountInput(entries);
      if prompt.amount.None? {
        report := InputEnded("CREDIT");
      } else {
        report := CreditWith(prompt);
      }
    }

    /** The rest of `_handle_credit_operation`, once the prompt has given an amount. */
    method CreditWith(prompt: Prompt) returns (report: Report)
      requires Valid() && prompt.amount.Some? && IsAcceptedAmount(prompt.amount.value)
      modifies this`finalBalance, this`amount, dataProgram
      ensures Valid() && unchanged(this`operationType)
      ensures var o := Credit(old(finalBalance), prompt);
        Reflects(o, old(dataProgram.calls), old(dataProgram.operationType), old(amount)) && report == o.report
    {
      ghost var b := finalBalance;
      amount := prompt.amount.value;
      StoreOperationNames();
      finalBalance := dataProgram.ExecuteOperation("read", finalBalance);
      CentsArithmetic(finalBalance, amount);
      finalBalance := QuantizeCents(Add(finalBalance, amount));
      var written := dataProgram.ExecuteOperation("write", finalBalance);
      report := Credited(finalBalance);
      ghost var cs := [Call("read", b), Call("write", finalBalance)];
      assert Credit(b, prompt) == Outcome(finalBalance, report, prompt, cs);
      assert dataProgram.calls == old(dataProgram.calls) + cs;
      assert dataProgram.operationType == StoreName(old(dataProgram.operationType), cs);
    }

    method HandleDebit(entries: seq<string>) returns (report: Report, prompt: Prompt)
      requires Valid()
      modifies this`finalBalance, this`amount, dataProgram
      ensures Valid() && unchanged(this`operationType)
      ensures prompt == PromptAmount(entries)
      ensures var o := Debit(old(finalBalance), prompt);
        Reflects(o, old(dataProgram.calls), old(dataProgram.operationType), old(amount)) && report == o.report
    {
      prompt := GetAmountInput(entries);
      if prompt.amount.None? {
        report := InputEnded("DEBIT");
      } else {
        report := DebitWith(prompt);
      }
    }

    /** The rest of `_handle_debit_operation`, once the prompt has given an amount. */
    method DebitWith(prompt: Prompt) returns (report: Report)
      requires Valid() && prompt.amount.Some? && IsAcceptedAmount(prompt.amount.value)
      modifies this`finalBalance, this`amount, dataProgram
      ensures Valid() && unchanged(this`operationType)
      ensures var o := Debit(old(finalBalance), prompt);
        Reflects(o, old(dataProgram.calls), old(dataProgram.operationType), old(amount)) && report == o.report
    {
      ghost var b := finalBalance;
      amount := prompt.amount.value;
      StoreOperationNames();
      finalBalance := dataProgram.ExecuteOperation("read", finalBalance);
      CentsArithmetic(finalBalance, amount);
      if AtMost(amount, finalBalance) {
        finalBalance := QuantizeCents(Sub(finalBalance, amount));
        var written := dataProgram.ExecuteOperation("write", finalBalance);
        report := Debited(finalBalance);
        ghost var cs := [Call("read", b), Call("write", finalBalance)];
        assert Debit(b, prompt) == Outcome(finalBalance, report, prompt, cs);
        assert dataProgram.calls == old(dataProgram.calls) + cs;
        assert dataProgram.operationType == StoreName(old(dataProgram.operationType), cs);
      } else {
        report := InsufficientFunds;
        ghost var cs := [Call("read", b)];
        assert Debit(b, prompt) == Outcome(b, report, prompt, cs);
        assert dataProgram.calls == old(dataProgram.calls) + cs;
        assert dataProgram.operationType == StoreName(old(dataProgram.operationType), cs);
      }
    }

    /**
     * `execute_operation`: record the normalised name and carry out the
     * operation it selects, against the ledger's balance.
     */
    method ExecuteOperation(passedOperation: string, entries: seq<string>) returns (report: Report, prompt: Prompt)
      requires Valid()
      modifies this, dataProgram
      ensures Valid() && operationType == OperationName(passedOperation)
      ensures var o := Execute(old(finalBalance), passedOperation, entries);
        Reflects(o, old(dataProgram.calls), old(dataProgram.operationType), old(amount))
        && report == o.report && prompt == o.prompt
    {
      operationType := OperationName(passedOperation);
      if operationType == "TOTAL" {
        report := HandleTotal();
        prompt := NoPrompt;
      } else if operationType == "CREDIT" {
        report, prompt := HandleCredit(entries);
      } else if operationType == "DEBIT" {
        report, prompt := HandleDebit(entries);
      } else {
        report := UnknownOperation(operationType);
        prompt := NoPrompt;
      }
    }
  }
}
