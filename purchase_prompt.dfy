/** The confirmation asked before a new postage batch is bought: the prompt is
    repeated until the user presses Y or Enter (confirm) or N (deny). */
module PurchasePrompt {
  import opened Wrappers
  import opened Failures

  /** The keys `ReadKey` can report, as the prompt tells them apart. */
  datatype Key = KeyY | KeyEnter | KeyN | OtherKey

  predicate IsAnswer(k: Key) {
    k != OtherKey
  }

  /** The user eventually presses one of the keys the prompt accepts. */
  predicate Answered(keys: seq<Key>) {
    exists i :: 0 <= i < |keys| && IsAnswer(keys[i])
  }

  const PurchaseDenied := InvalidOperation("Batch purchase denied")

  /** The index of the first key that answers the prompt. */
  function FirstAnswer(keys: seq<Key>): (i: nat)
    requires Answered(keys)
    ensures i < |keys| && IsAnswer(keys[i])
    ensures forall m :: 0 <= m < i ==> keys[m] == OtherKey
    decreases |keys|
  {
    if IsAnswer(keys[0]) then 0
    else
      var w :| 0 <= w < |keys| && IsAnswer(keys[w]);
      assert keys[1..][w - 1] == keys[w];
      FirstAnswer(keys[1..]) + 1
  }

  /** The answer the prompt settles on: the first Y or Enter confirms, the first
      N denies, whatever comes first. */
  function PromptAnswer(keys: seq<Key>): (r: Result<(), Error>)
    requires Answered(keys)
    ensures r.Success? <==> exists i :: 0 <= i < |keys| && keys[i] in {KeyY, KeyEnter} &&
                                        forall m :: 0 <= m < i ==> keys[m] == OtherKey
    ensures r.Failure? ==> r.error == PurchaseDenied
  {
    var i := FirstAnswer(keys);
    if keys[i] == KeyN then
      Failure(PurchaseDenied)
    else
      Success(())
  }

  /** The prompt loop: read keys until one answers; any other key prints
      "Invalid selection" and asks again. Returns how many keys were read. */
  method ConfirmPurchase(keys: seq<Key>) returns (keysRead: nat, answer: Result<(), Error>)
    requires Answered(keys)
    ensures keysRead == FirstAnswer(keys) + 1
    ensures answer == PromptAnswer(keys)
  {
    ghost var first := FirstAnswer(keys);
    keysRead := 0;
    var validSelection := false;
    while !validSelection
      invariant keysRead <= first + 1
      invariant !validSelection ==> keysRead <= first
      invariant validSelection ==> keysRead == first + 1 && keys[first] in {KeyY, KeyEnter}
      decreases first + 1 - keysRead
    {
      var key := keys[keysRead];
      keysRead := keysRead + 1;
      match key
      case KeyY => validSelection := true;
      case KeyEnter => validSelection := true;
      case KeyN => return keysRead, Failure(PurchaseDenied);
      case OtherKey =>
    }
    answer := Success(());
  }
}
