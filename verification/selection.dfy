/**
 * Picking an item from a numbered list: the user types a number, it is
 * parsed with strconv.Atoi and must lie in [1, len]; the item shown as
 * number n is the list's element n-1.
 */
module Selection {
  import opened Wrappers
  import opened Text
  import opened Console

  datatype SelectError = NotANumber | OutOfRange

  function Select<T>(items: seq<T>, choice: string): (r: Result<T, SelectError>)
    ensures r == Err(NotANumber) <==> Atoi(choice).None?
    ensures r == Err(OutOfRange) <==> Atoi(choice).Some? && !(1 <= Atoi(choice).value <= |items|)
    ensures r.Ok? ==> 1 <= Atoi(choice).value <= |items| && r.value == items[Atoi(choice).value - 1]
  {
    match Atoi(choice)
    case None => Err(NotANumber)
    case Some(n) => if n < 1 || n > |items| then Err(OutOfRange) else Ok(items[n - 1])
  }

  /** Typing the number shown next to an item selects that item. */
  lemma SelectByNumber<T>(items: seq<T>, i: nat)
    requires i < |items| && i < MaxInt64
    ensures Select(items, Decimal(i + 1)) == Ok(items[i])
  {
    AtoiDecimal(i + 1);
  }

  /** fmt.Scanln of the choice, then the selection. */
  function Choose<T>(w: World, items: seq<T>): (res: (Result<T, SelectError>, World))
    ensures res.1 == w.(stdin := res.1.stdin) && |res.1.stdin| <= |w.stdin|
    ensures res.0 == Select(items, w.ScanToken().0)
  {
    var (token, w1) := w.ScanToken();
    (Select(items, token), w1)
  }

  method ReadChoice<T>(con: Console, items: seq<T>) returns (r: Result<T, SelectError>)
    modifies con
    ensures (r, con.State()) == Choose(old(con.State()), items)
  {
    var token := con.ScanToken();
    r := Select(items, token);
  }
}
