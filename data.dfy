/**
 * data.py: `DataProgram`, the one-cell balance store (the COBOL program
 * DataProgram with its `STORAGE-BALANCE`).  A caller passes an operation
 * name and a balance; "read" hands back the stored balance, "write" stores
 * the balance given, rounded to cents.
 */
module Data {
  import opened Decimals
  import opened Text

  /** One call of `execute_operation`: the name and the balance passed. */
  datatype Call = Call(operation: string, balance: Decimal)

  /** `STORAGE-BALANCE PIC 9(6)V99 VALUE 1000.00`. */
  const InitialBalance := Decimal(100000, 2)

  class DataProgram {
    var storageBalance: Decimal
    var operationType: string
    /** Every call of ExecuteOperation on this store, oldest first. */
    ghost var calls: seq<Call>

    /** The stored balance always has exactly two decimals. */
    ghost predicate Valid()
      reads this
    {
      IsCents(storageBalance)
    }

    constructor ()
      ensures Valid()
      ensures storageBalance == InitialBalance && operationType == "" && calls == []
    {
      storageBalance := InitialBalance;
      operationType := "";
      calls := [];
    }

    /** `_handle_read_operation`: the stored balance; the argument plays no part. */
    function ReadOperation(balance: Decimal): (r: Decimal)
      requires Valid()
      reads this
      ensures IsCents(r)
    {
      storageBalance
    }

    /** `_handle_write_operation`: store the balance rounded half-up to cents, and return it. */
    method WriteOperation(balance: Decimal) returns (r: Decimal)
      modifies this`storageBalance
      ensures Valid()
      ensures storageBalance == QuantizeCents(balance) && r == storageBalance
    {
      storageBalance := QuantizeCents(balance);
      r := storageBalance;
    }

    /**
     * `execute_operation`: record the name, lower-cased and stripped, then
     * read, write, or hand the balance straight back for any other name.
     */
    method ExecuteOperation(passedOperation: string, balance: Decimal) returns (r: Decimal)
      requires Valid()
      modifies this`operationType, this`storageBalance, this`calls
      ensures Valid()
      ensures operationType == Strip(Lower(passedOperation))
      ensures calls == old(calls) + [Call(passedOperation, balance)]
      ensures operationType == "read" ==>
        r == old(storageBalance) && storageBalance == old(storageBalance)
      ensures operationType == "write" ==>
        storageBalance == QuantizeCents(balance) && r == storageBalance
      ensures operationType != "read" && operationType != "write" ==>
        r == balance && storageBalance == old(storageBalance)
    {
      operationType := Strip(Lower(passedOperation));
      calls := calls + [Call(passedOperation, balance)];
      r := Dispatch(operationType, balance);
    }

    /** The if/elif chain of `execute_operation`, on the normalised name. */
    method Dispatch(name: string, balance: Decimal) returns (r: Decimal)
      requires Valid()
      modifies this`storageBalance
      ensures Valid()
      ensures name == "read" ==> r == old(storageBalance) && storageBalance == old(storageBalance)
      ensures name == "write" ==> storageBalance == QuantizeCents(balance) && r == storageBalance
      ensures name != "read" && name != "write" ==> r == balance && storageBalance == old(storageBalance)
    {
      if name == "read" {
        r := ReadOperation(balance);
      } else if name == "write" {
        r := WriteOperation(balance);
      } else {
        r := balance;
      }
    }

    /** `get_current_balance`: the stored balance, with no side effect. */
    method GetCurrentBalance() returns (r: Decimal)
      requires Valid()
      ensures r == storageBalance && IsCents(r)
    {
      r := storageBalance;
    }
  }

  /** The names the ledger passes are already in the form the store matches on. */
  lemma StoreOperationNames()
    ensures Strip(Lower("read")) == "read"
    ensures Strip(Lower("write")) == "write"
  {
    assert Lower("read") == "read" by { assert forall i :: 0 <= i < 4 ==> LowerChar("read"[i]) == "read"[i]; }
    assert Lower("write") == "write" by { assert forall i :: 0 <= i < 5 ==> LowerChar("write"[i]) == "write"[i]; }
    StripUntouched("read");
    StripUntouched("write");
  }

  /** A read after a write returns the value written, rounded to cents, whatever balance the read passes. */
  method ReadAfterWrite(store: DataProgram, balance: Decimal, passed: Decimal) returns (written: Decimal, read: Decimal)
    requires store.Valid()
    modifies store
    ensures written == QuantizeCents(balance) && read == written
    ensures store.storageBalance == written
  {
    StoreOperationNames();
    written := store.ExecuteOperation("write", balance);
    read := store.ExecuteOperation("read", passed);
  }
}
