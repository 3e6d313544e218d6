/** Small vocabulary shared by the upload route and the chat route. */
module Common {

  /** A value that may be missing; for an oracle reply, None stands for a call that throws. */
  datatype Option<+T> = None | Some(value: T)

  /** An embedding as the provider returns it (`embedding.values`). Floating point is
      modelled by reals; no arithmetic is done on vectors in this model. */
  type Vector = seq<real>

  function Min(a: int, b: int): int
  {
    if a <= b then a else b
  }

  /** The strings of `parts` written one after another. */
  function Concat(parts: seq<string>): string
  {
    if |parts| == 0 then "" else parts[0] + Concat(parts[1..])
  }

  lemma {:induction false} ConcatAppend(parts: seq<string>, last: string)
    ensures Concat(parts + [last]) == Concat(parts) + last
  {
    if |parts| == 0 {
      assert parts + [last] == [last];
    } else {
      assert (parts + [last])[1..] == parts[1..] + [last];
      ConcatAppend(parts[1..], last);
    }
  }
}
