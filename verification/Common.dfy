/** Values shared by every model in this project. */
module Common {
  /** A value that may be absent: a nil reference, a missing map key, a missing file. */
  datatype Option<+T> = None | Some(value: T)

  newtype byte = x: int | 0 <= x < 256

  type Bytes = seq<byte>

  /** Node labels, and the selectors that match them. */
  type Labels = map<string, string>

  /** `s` without any `x`. */
  function Dropping<T(==)>(s: seq<T>, x: T): seq<T> {
    if s == [] then []
    else
      var last := s[|s| - 1];
      Dropping(s[..|s| - 1], x) + (if last == x then [] else [last])
  }

  lemma {:induction false} DroppingMembers<T>(s: seq<T>, x: T)
    ensures forall y :: y in Dropping(s, x) <==> y in s && y != x
  {
    if s != [] {
      var n := |s| - 1;
      DroppingMembers(s[..n], x);
      assert s == s[..n] + [s[n]];
    }
  }

  lemma DroppingSnoc<T>(s: seq<T>, y: T, x: T)
    ensures Dropping(s + [y], x) == Dropping(s, x) + (if y == x then [] else [y])
  {
    assert (s + [y])[..|s|] == s;
  }

  lemma Reassociate<T>(a: seq<T>, b: seq<T>, c: seq<T>)
    ensures (a + b) + c == a + (b + c)
  {
  }

  lemma Inhabited(s: set<int>)
    requires s != {}
    ensures exists x: int :: x in s
  {
    assert (forall x :: x !in s) ==> s == {};
  }
}
