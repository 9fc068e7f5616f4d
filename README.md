# Account ledger, modelled in Dafny

The Python account-management application, ported from COBOL, keeps one
balance. `Operations` (python-accounting-app/operations.py) is the business
logic. It takes an operation name (`TOTAL`, `CREDIT` or `DEBIT`) and asks for an
amount where one is needed. It checks the amount, then reads and writes the
balance through a `DataProgram` (python-accounting-app/data.py). That is a one-cell
store whose balance starts at 1000.00 and is rounded half-up to cents on every
write.

The Dafny project models both classes and the Python `Decimal` arithmetic they rely on:

- `wrappers.dfy` (`Wrappers`): `Option` and `Result`.
- `decimals.dfy` (`Decimals`): exact decimals as `Decimal(digits, exp)`, worth
  digits·10^-exp. It defines comparison, addition and subtraction, and
  `quantize(Decimal("0.01"), ROUND_HALF_UP)` as `QuantizeCents`. The rounding is
  specified independently by `RoundsHalfUp`, an integer statement of "nearest
  cent, ties away from zero".
- `text.dfy` (`Text`): `str.strip()`, `str.upper()` and `str.lower()` as used on
  operation names.
- `decimal_text.dfy` (`DecimalText`): `Decimal(str)` for the plain notation
  `[blanks][sign](digits[.digits] | .digits)[blanks]`. It also models
  `str(Decimal)` in plain notation, which is how a balance is printed.
- `data.dfy` (`Data`): the `DataProgram` class. Its fields are `storageBalance`
  and `operationType`, plus a ghost log of the calls made on it.
- `operations.dfy` (`Ledger`): the amount checks, and the prompt loop over the
  lines typed. It also has a specification of each operation as a function
  (`Total`, `Credit`, `Debit`, `Execute`), and the `Operations` class whose
  methods are proved to follow it.
- `scenarios.dfy` (`Scenarios`): the runs the test suite walks through,
  stated as lemmas, plus two methods that drive the classes.

The keyboard is modelled as the finite sequence of lines typed during one
operation. Each printed message becomes a `Report` value. A run whose lines all
fail validation ends with `InputEnded`, and nothing changes. This stands for
`input()` raising `EOFError` when the input is exhausted. The broad handler of
`execute_operation` catches that error (python-accounting-app/operations.py:119-120).
Before the handler runs, the amount, the balance and the store are untouched.

The comments at python-accounting-app/operations.py:18,
python-accounting-app/operations.py:22 and python-accounting-app/data.py:18
describe the balance as a COBOL `PIC 9(6)V99` field, which cannot hold more than
999999.99. The code has no such cap, and the model follows the code. Only a
single amount is limited, so crediting 999999.99 to 1000.00 gives 1000999.99.

## Model

| member | source | states |
|---|---|---|
| Decimals.QuantizeCents | python-accounting-app/operations.py:21-23 | the result has exactly two decimals and is the input rounded to the nearest cent, a tie going away from zero (`RoundsHalfUp`) |
| Decimals.HalfUpUnique | python-accounting-app/operations.py:21-23 | at most one whole number of cents is the half-up rounding of a value, so `RoundsHalfUp` pins the result down |
| Decimals.QuantizeIdempotent | python-accounting-app/data.py:26-28 | rounding an already rounded value changes nothing, so the store's rounding of a balance the ledger rounded is harmless |
| Decimals.QuantizeWholeCents | python-accounting-app/data.py:80 | a value that already has two decimals is stored unchanged |
| Decimals.QuantizeWithin | python-accounting-app/operations.py:33-40 | a value between two whole-cent bounds rounds to a number of cents between them |
| Decimals.Less | python-accounting-app/operations.py:33-36 | Python's `<` on decimals. Its partner `LessValue` proves it is `<` on the exact values |
| Decimals.AtMost | python-accounting-app/operations.py:82 | Python's `<=` on decimals, the negation of `Less` with the operands swapped. `LessValue` and `LessCents` give its meaning on values and on cents |
| Decimals.Add | python-accounting-app/operations.py:64 | Python's `+` on decimals. Its partner `AddValue` proves it exact, and `AddCents` proves it coefficient-wise on cents |
| Decimals.Sub | python-accounting-app/operations.py:84 | Python's `-` on decimals. Its partner `SubValue` proves it exact, and `AddCents` proves it coefficient-wise on cents |
| Decimals.LessValue | python-accounting-app/operations.py:33-36 | `<` on decimals is `<` on their exact values, whatever their exponents |
| Decimals.LessThanZero | python-accounting-app/operations.py:33 | a decimal is below zero exactly when its coefficient is negative |
| Decimals.AddValue | python-accounting-app/operations.py:64 | decimal addition is exact: its value is the sum of the values |
| Decimals.SubValue | python-accounting-app/operations.py:84 | decimal subtraction is exact: its value is the difference of the values |
| Decimals.AddCents | python-accounting-app/operations.py:64 | the sum and difference of two whole-cent amounts are whole-cent amounts, added or subtracted coefficient-wise |
| Decimals.LessCents | python-accounting-app/operations.py:82 | between two whole-cent amounts, `<` compares the numbers of cents |
| Text.Strip | python-accounting-app/operations.py:103 | Python's `str.strip()`. `StripSpec` proves it removes exactly the leading and trailing whitespace runs, and `StripIdempotent` proves it idempotent |
| Text.Upper | python-accounting-app/operations.py:103 | Python's `str.upper()` on ASCII letters. `UpperAbsorbs` proves it idempotent and that it overrides `Lower`, and `StripUpper` proves it commutes with `Strip` |
| Text.Lower | python-accounting-app/data.py:99 | Python's `str.lower()` on ASCII letters. `StripUpper` proves it commutes with `Strip` |
| Text.TrimStartSpec | python-accounting-app/operations.py:103 | the left strip removes exactly the longest run of leading whitespace |
| Text.TrimEndSpec | python-accounting-app/operations.py:103 | the right strip removes exactly the longest run of trailing whitespace |
| Text.StripSpec | python-accounting-app/operations.py:103 | `strip()` keeps the slice between a leading and a trailing whitespace run, and the result has no whitespace at either end |
| Text.StripUntouched | python-accounting-app/data.py:99 | a string with no whitespace at either end is its own strip |
| Text.StripIdempotent | python-accounting-app/operations.py:103 | stripping twice is stripping once |
| Text.UpperAbsorbs | python-accounting-app/operations.py:103 | upper-casing is idempotent and overrides an earlier lower-casing |
| Text.StripUpper | python-accounting-app/data.py:99 | strip commutes with upper- and lower-casing, so the order of `strip` and `lower` or `upper` in the source does not matter |
| DecimalText.ParseDecimal | python-accounting-app/operations.py:30 | `Decimal(line)`, with `None` where Python raises. `ParseAcceptsNumerals` proves it defined on exactly the numerals, and `ParseRender` proves it the inverse of `Render` |
| DecimalText.ParseAcceptsNumerals | python-accounting-app/operations.py:30 | `Decimal(line)` succeeds exactly when the line is optional whitespace, an optional sign, digits with at most one point and at least one digit, then optional whitespace. The grammar is stated character by character, apart from the parser |
| DecimalText.Render | python-accounting-app/operations.py:52 | `str(d)` in plain notation. `ParseRender` proves that reading it back gives `d`, and `RenderCents` gives its shape for a balance in cents |
| DecimalText.ParseRender | python-accounting-app/operations.py:30 | `Decimal(str(d)) == d`: reading back a printed decimal gives the same decimal, exponent included |
| DecimalText.ParseRejectsLeading | python-accounting-app/operations.py:42-44 | a line starting with anything but a blank, a sign, a digit or a point is not a number |
| DecimalText.RenderCents | python-accounting-app/operations.py:52 | a non-negative balance in cents prints as its whole part, a point, and exactly two cent digits |
| Data.DataProgram.constructor | python-accounting-app/data.py:16-20 | a new store holds 1000.00, an empty operation name, and has seen no calls |
| Data.DataProgram.ReadOperation | python-accounting-app/data.py:56-67 | the result is the stored balance, with two decimals, whatever the argument |
| Data.DataProgram.WriteOperation | python-accounting-app/data.py:69-85 | the store holds the argument rounded half-up to cents and returns it |
| Data.DataProgram.ExecuteOperation | python-accounting-app/data.py:87-119 | records the name lower-cased and stripped and logs the call. "read" returns the balance unchanged. "write" stores and returns the rounded argument. Any other name returns the argument and leaves the balance alone |
| Data.DataProgram.Dispatch | python-accounting-app/data.py:106-115 | the three branches of the name match, each with its effect on the stored balance |
| Data.DataProgram.GetCurrentBalance | python-accounting-app/data.py:123-125 | returns the stored balance and changes nothing |
| Data.ReadAfterWrite | python-accounting-app/tests/test_data.py:44-50 | a read after a write returns the written value, rounded to cents, whatever balance the read passes |
| Ledger.CheckAmount | python-accounting-app/operations.py:33-40 | an amount that passes the checks comes back as whole cents between 0.00 and 999999.99 |
| Ledger.CheckAmountMeaning | python-accounting-app/operations.py:33-40 | below zero is refused as negative, above 999999.99 as too large, both on the unrounded value and each as an if-and-only-if. Anything else is accepted, rounded half-up |
| Ledger.CheckAcceptsCents | python-accounting-app/operations.py:40 | an amount already in whole cents and in range passes unchanged |
| Ledger.ValidateAmount | python-accounting-app/operations.py:29-44 | one attempt of the prompt; what it accepts is whole cents in range |
| Ledger.ValidateAmountMeaning | python-accounting-app/operations.py:30-44 | a line is refused as badly formed exactly when it is not a numeral in the sense of `IsNumeral`; the number a numeral spells goes on to the checks |
| Ledger.FirstAcceptedTakes | python-accounting-app/operations.py:27-44 | the loop reads lines up to and including the first accepted one, or all of them, and the amount is that line's |
| Ledger.FirstAcceptedRejects | python-accounting-app/operations.py:27-44 | every line the loop refuses is reported, in order, with its reason |
| Ledger.FirstAccepted | python-accounting-app/operations.py:27-44 | the retry loop over the outcomes of validating each line. `FirstAcceptedTakes` and `FirstAcceptedRejects` state what it reads, takes and reports |
| Ledger.PromptAmount | python-accounting-app/operations.py:25-44 | the amount the prompt hands back, if any, is whole cents in range |
| Ledger.PromptAmountSpec | python-accounting-app/operations.py:25-44 | the prompt takes the first valid line and reports why each earlier line was refused. With no valid line, every line is consumed and no amount is returned |
| Ledger.Total | python-accounting-app/operations.py:46-52 | the effect of an inquiry. `ExecuteKeepsBalance` and `TotalRun` prove it reads once, reports the balance and changes nothing |
| Ledger.Credit | python-accounting-app/operations.py:54-70 | the effect of a credit once the prompt has answered. `CreditAdds` proves it an exact, uncapped addition with a read then a write |
| Ledger.Debit | python-accounting-app/operations.py:72-93 | the effect of a debit once the prompt has answered. `DebitSubtractsOrRefuses` proves it subtracts exactly when covered and only reads otherwise |
| Ledger.OperationName | python-accounting-app/operations.py:103 | the name as matched, `strip().upper()`. `ExecuteNormalisesName` proves that normalising again, or lower-casing first, changes nothing |
| Ledger.Execute | python-accounting-app/operations.py:95-117 | the dispatch on the name. `ExecuteKeepsLedger`, `ExecuteKeepsBalance` and `ExecuteNormalisesName` state what every run keeps |
| Ledger.CentsArithmetic | python-accounting-app/operations.py:64-84 | for whole-cent balance and amount, rounding the sum or difference changes nothing, and `>=` compares cents |
| Ledger.ExecuteKeepsLedger | python-accounting-app/operations.py:95-117 | every operation keeps the balance a non-negative whole number of cents. A changed balance comes from exactly one read and then one write, and any store traffic starts with a read |
| Ledger.CreditAdds | python-accounting-app/operations.py:54-70 | a credit adds the amount exactly, with no cap on the new balance, and makes one read then one write |
| Ledger.DebitSubtractsOrRefuses | python-accounting-app/operations.py:72-93 | a covered debit subtracts exactly, with a read then a write. An uncovered one leaves the balance, reports insufficient funds and only reads |
| Ledger.ExecuteKeepsBalance | python-accounting-app/operations.py:46-120 | an inquiry only reads. An unknown name touches nothing. An operation whose input ends before an amount is accepted touches nothing |
| Ledger.ExecuteNormalisesName | python-accounting-app/operations.py:103 | a name, its stripped upper-case form and its lower-case form select the same operation with the same effect |
| Ledger.Operations.constructor | python-accounting-app/operations.py:14-19 | a new ledger: empty name, amount 0.00, balance 1000.00, and a fresh store holding 1000.00 |
| Ledger.Operations.GetAmountInput | python-accounting-app/operations.py:25-44 | the retry loop over the lines typed returns exactly `PromptAmount` |
| Ledger.Operations.HandleTotal | python-accounting-app/operations.py:46-52 | reads the store once into the balance and reports it; the invariant holds |
| Ledger.Operations.HandleCredit | python-accounting-app/operations.py:54-70 | prompts, then has the effect `Credit` gives on balance, amount, store and call log |
| Ledger.Operations.CreditWith | python-accounting-app/operations.py:61-70 | the credit after an amount is accepted: read, add, round, write, as `Credit` states |
| Ledger.Operations.HandleDebit | python-accounting-app/operations.py:72-93 | prompts, then has the effect `Debit` gives on balance, amount, store and call log |
| Ledger.Operations.DebitWith | python-accounting-app/operations.py:79-93 | the debit after an amount is accepted: read, and subtract and write only when covered, as `Debit` states |
| Ledger.Operations.ExecuteOperation | python-accounting-app/operations.py:95-120 | records the stripped upper-case name, and has exactly the effect `Execute` gives on balance, amount, store and call log, keeping the invariant |
| Scenarios.NameTotal | python-accounting-app/tests/test_operations.py:37-49 | the name "TOTAL " is matched as TOTAL |
| Scenarios.NameCredit | python-accounting-app/tests/test_operations.py:62-79 | the name "CREDIT" is matched as CREDIT |
| Scenarios.NameDebit | python-accounting-app/tests/test_operations.py:116-132 | the name "DEBIT " is matched as DEBIT |
| Scenarios.TotalRun | python-accounting-app/operations.py:46-52 | an inquiry on any balance reads once and reports that balance |
| Scenarios.CreditRun | python-accounting-app/operations.py:54-70 | a credit whose first line is accepted: the full outcome, calls included |
| Scenarios.DebitRun | python-accounting-app/operations.py:81-90 | a covered debit whose first line is accepted: the full outcome |
| Scenarios.RefusedDebitRun | python-accounting-app/operations.py:91-93 | an uncovered debit: balance kept, one read, no write |
| Scenarios.RetryRun | python-accounting-app/operations.py:27-44 | a refused line and then a valid one: the second is taken and the first one's reason reported |
| Scenarios.ReadsShown | python-accounting-app/operations.py:30-40 | typing an acceptable amount as the ledger prints it gives back that amount |
| Scenarios.RefusesShownNegative | python-accounting-app/operations.py:33-35 | typing a negative amount as printed is refused as negative |
| Scenarios.RefusesShownLarge | python-accounting-app/operations.py:36-38 | typing a whole-cent amount above 999999.99 as printed is refused as too large |
| Scenarios.Reads123_456 | python-accounting-app/tests/test_integration.py:158-173 | "123.456" is accepted as 123.46 |
| Scenarios.ReadsZero | python-accounting-app/tests/test_operations.py:82-91 | "0" is accepted as 0.00 |
| Scenarios.RefusesInvalid | python-accounting-app/tests/test_operations.py:192-199 | "invalid" is refused as badly formed |
| Scenarios.ShowsInitialBalance | python-accounting-app/tests/test_integration.py:23-32 | the opening balance prints as "1000.00" |
| Scenarios.FormatCurrencyExamples | python-accounting-app/tests/test_operations.py:183-189 | 123.456 rounds to 123.46 and 123.454 to 123.45 |
| Scenarios.HalfUpTieExamples | python-accounting-app/operations.py:21-23 | a tie goes away from zero: 0.005 rounds to 0.01, -0.005 to -0.01 and 123.455 to 123.46 |
| Scenarios.Shows250_50 | python-accounting-app/tests/test_operations.py:62 | the line `Render(Decimal(25050, 2))` is the literal "250.50" |
| Scenarios.Shows100_50 | python-accounting-app/tests/test_operations.py:192 | the line `Render(Decimal(10050, 2))` is the literal "100.50" |
| Scenarios.Shows9999999_99 | python-accounting-app/tests/test_operations.py:212 | the line `Render(Decimal(999999999, 2))` is the literal "9999999.99" |
| Scenarios.Shows123_456 | python-accounting-app/tests/test_integration.py:163 | the line `Render(Decimal(123456, 3))` is the literal "123.456" |
| Scenarios.ShowsMinus100 | python-accounting-app/tests/test_operations.py:202 | the line `Render(Decimal(-100, 0))` is the literal "-100" |
| Scenarios.ShowsZero | python-accounting-app/tests/test_operations.py:82 | the line `Render(Decimal(0, 0))` is the literal "0" |
| Scenarios.UnroundedBoundsExamples | python-accounting-app/operations.py:33-40 | -0.001 is refused though it rounds to 0.00, and 999999.994 is refused though it rounds to 999999.99 |
| Scenarios.InitialInquiry | python-accounting-app/tests/test_operations.py:37-49 | an inquiry on a new ledger reads 1000.00 once and reports it |
| Scenarios.CreditExample | python-accounting-app/tests/test_operations.py:62-79 | crediting 250.50 to 1000.00 reads 1000.00, writes 1250.50 and reports it |
| Scenarios.ZeroCreditExample | python-accounting-app/tests/test_operations.py:82-91 | crediting 0 reads and writes 1000.00 |
| Scenarios.LargestCreditExample | python-accounting-app/tests/test_operations.py:105-113 | crediting 999999.99 to 1000.00 gives 1000999.99 |
| Scenarios.DebitExample | python-accounting-app/tests/test_operations.py:116-132 | debiting 200.00 from 1000.00 reads 1000.00, writes 800.00 and reports it |
| Scenarios.ExactDebitExample | python-accounting-app/tests/test_integration.py:176-198 | debiting the whole 1000.00 leaves 0.00 |
| Scenarios.InsufficientExample | python-accounting-app/tests/test_operations.py:146-157 | debiting 1500.00 from 1000.00 reports insufficient funds after a single read |
| Scenarios.OneCentShortExample | python-accounting-app/tests/test_operations.py:171-180 | debiting 100.01 from 100.00 is refused |
| Scenarios.RetryExamples | python-accounting-app/tests/test_operations.py:192-219 | "invalid", "-100" and "9999999.99" are each refused with their reason, and the next line, 100.50, is taken |
| Scenarios.PrecisionExample | python-accounting-app/tests/test_integration.py:158-173 | crediting 123.456 to 1000.00 gives 1123.46 |
| Scenarios.SequenceExample | python-accounting-app/tests/test_integration.py:112-135 | credit 500.25 then debit 150.75 takes 1000.00 to 1500.25 and then to 1349.50 |
| Scenarios.SequenceRun | python-accounting-app/tests/test_integration.py:112-135 | the same sequence on a new `Operations` object yields the reports 1000.00, 1500.25, 1349.50 and 1349.50 |
| Scenarios.StoreRun | python-accounting-app/tests/test_data.py:53-64 | a store writes 1000.567 as 1000.57 and reads it back. The name "INVALID" returns its balance untouched |

## Left out

- Console I/O. `input()` becomes the sequence of lines typed for one
  operation. `print` becomes the `Report` value, and the prompt's refusal
  messages become the reasons in `Prompt.rejected`.
- Running out of input. `input()` raising `EOFError` becomes the lines running
  out, and the run ends with `InputEnded`. The broad `except Exception`
  handlers (python-accounting-app/operations.py:119-120,
  python-accounting-app/data.py:117-119) are otherwise left out. The model
  raises nothing else they could catch.
- Converting a non-`Decimal` balance (python-accounting-app/data.py:103-104).
  Balances are always decimals in the model.
- `ParseDecimal` covers only the plain notation of `Decimal(str)`. The model
  refuses every other form as `InvalidFormat`, while Python gives these outcomes:
  - `1E3` (any exponent form): accepted as 1000.00.
  - `1_000` (underscores between digits): accepted as 1000.00.
  - `١٢` (non-ASCII decimal digits): accepted as 12.00.
  - `Infinity` or `inf`: refused as too large.
  - `-Infinity`: refused as negative.
  - `NaN` is the one form where the two agree. Comparing it with 0 raises
    `InvalidOperation`, so Python also reports it as badly formed.
- The decimal context: 28-digit precision and the `InvalidOperation` that
  `quantize` raises past it. Arithmetic in the model is exact and unbounded.
- `str(Decimal)` in exponent notation. Python uses it for very small values
  such as `Decimal("0.0000001")`. `Render` always writes plain notation;
  balances and amounts in cents never need anything else.
- `Upper` and `Lower` map ASCII letters only, unlike Python's `str.upper()` and
  `str.lower()`. This changes the dispatch for names such as `debıt` and `credıt`
  (with U+0131, dotless i). Python upper-cases them to `DEBIT` and `CREDIT` and
  runs the operation. The model reports `UnknownOperation`.
- The commented-out JSON persistence in python-accounting-app/data.py,
  which is not live code.
- `reset_balance`. The data tests call it, but python-accounting-app/data.py
  does not define it.
- python-accounting-app/main.py: the menu loop. python-accounting-app/run_tests.py:
  the test runner. The `__main__` demo in python-accounting-app/operations.py.
- Replacing `data_program` with a mock, as the unit tests do. The ghost call
  log of `DataProgram` states the same facts the mocks check: the names,
  balances and order of the calls.
