/** Searching a range from the front, which is what every early `return` in a `for` loop does. */
module Search {
  import opened Wrappers

  /** The least index below `n` at which `p` holds. */
  function First(n: nat, p: nat -> bool): (r: Option<nat>)
    ensures r.Some? ==> r.value < n && p(r.value) && forall j: nat :: j < r.value ==> !p(j)
    ensures r.None? ==> forall j: nat :: j < n ==> !p(j)
  {
    if n == 0 then None
    else
      var r := First(n - 1, p);
      if r.Some? then r
      else if p(n - 1) then Some(n - 1)
      else None
  }
}
