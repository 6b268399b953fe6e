/** Keys of nested groupings. */
module GroupKeys {
  import opened Wrappers

  /** The first n hierarchy values, None when one of them is missing. */
  function Prefix(keys: seq<Option<string>>, n: nat): Option<seq<string>>
    decreases n
  {
    if n == 0 then Some([])
    else if keys == [] || keys[0].None? then None
    else match Prefix(keys[1..], n - 1)
         case None => None
         case Some(rest) => Some([keys[0].value] + rest)
  }

  /** The first values are present and are those of k. */
  predicate StartsWith(keys: seq<Option<string>>, k: seq<string>) {
    |k| <= |keys| && forall i :: 0 <= i < |k| ==> keys[i] == Some(k[i])
  }

  /** A prefix lists the first n values, all of them present. */
  lemma {:induction false} PrefixMeans(keys: seq<Option<string>>, n: nat, k: seq<string>)
    ensures Prefix(keys, n) == Some(k) <==>
      |k| == n <= |keys| && forall i :: 0 <= i < n ==> keys[i] == Some(k[i])
    decreases n
  {
    if n > 0 && keys != [] && keys[0].Some? {
      if k != [] {
        PrefixMeans(keys[1..], n - 1, k[1..]);
        assert k == [k[0]] + k[1..];
        assert forall i :: 0 < i < n <= |keys| && |k| == n ==> keys[i] == keys[1..][i - 1] && k[i] == k[1..][i - 1];
      }
      if Prefix(keys, n) == Some(k) {
        var rest := Prefix(keys[1..], n - 1).value;
        assert k == [keys[0].value] + rest;
      }
    }
  }
}
