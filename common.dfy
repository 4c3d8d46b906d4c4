/** Building blocks shared by the server and client models: optional values,
    the shape of an `Alert.alert` call, the outcome of an HTTP request, and
    order-preserving filtering of a list (JavaScript's `Array.prototype.filter`). */
module Common {

  /** JavaScript's `null`/`undefined` versus a present value. */
  datatype Option<+T> = None | Some(value: T)

  /** An `Alert.alert(title, message)` call; `message` is "" when the call passes only a title. */
  datatype Alert = Alert(title: string, message: string)

  /** What a `fetch` that the client awaits ends in: a response with its `ok` flag,
      or a rejection (network failure) that lands in the `catch` block. */
  datatype HttpOutcome = Responded(ok: bool) | RequestFailed

  /** `sub` is `s` with zero or more elements deleted and the rest kept in their order. */
  ghost predicate IsSubsequence<T>(sub: seq<T>, s: seq<T>)
    decreases |s|
  {
    || sub == []
    || (&& s != []
        && ((sub[0] == s[0] && IsSubsequence(sub[1..], s[1..])) || IsSubsequence(sub, s[1..])))
  }

  /** The elements of `s` for which `keep` holds, in their original order. */
  function Filter<T(!new)>(s: seq<T>, keep: T -> bool): (kept: seq<T>)
    ensures IsSubsequence(kept, s)
    ensures forall k :: 0 <= k < |kept| ==> keep(kept[k])
    ensures forall k :: 0 <= k < |s| && keep(s[k]) ==> s[k] in kept
    ensures forall x :: multiset(kept)[x] == if keep(x) then multiset(s)[x] else 0
  {
    if s == [] then []
    else
      assert s == [s[0]] + s[1..];
      if keep(s[0]) then [s[0]] + Filter(s[1..], keep) else Filter(s[1..], keep)
  }

  /** Filtering a list whose every element is kept gives the list back. */
  lemma {:induction false} FilterKeepsAll<T(!new)>(s: seq<T>, keep: T -> bool)
    requires forall k :: 0 <= k < |s| ==> keep(s[k])
    ensures Filter(s, keep) == s
  {
    if s != [] {
      FilterKeepsAll(s[1..], keep);
      assert s == [s[0]] + s[1..];
    }
  }
}
