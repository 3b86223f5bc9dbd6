/** Result types, bytes and their order, shared by every model. */
module Base {

  datatype Option<+T> = None | Some(value: T)

  datatype Result<+T, +E> = Ok(value: T) | Err(error: E)

  type Byte = x: int | 0 <= x < 256

  type Octets = seq<Byte>

  /** COALESCE(column, 0). */
  function OrZero(o: Option<nat>): nat {
    if o.Some? then o.value else 0
  }

  /** Go's strings.Compare(a, b) < 0 and bytes.Compare(a, b) < 0. */
  predicate Less(a: Octets, b: Octets) {
    if |b| == 0 then false
    else if |a| == 0 then true
    else if a[0] != b[0] then a[0] < b[0]
    else Less(a[1..], b[1..])
  }

  lemma {:induction false} LessTransitive(a: Octets, b: Octets, c: Octets)
    requires Less(a, b) && Less(b, c)
    ensures Less(a, c)
  {
    if |a| != 0 && a[0] == b[0] && b[0] == c[0] {
      LessTransitive(a[1..], b[1..], c[1..]);
    }
  }

  lemma {:induction false} LessTotal(a: Octets, b: Octets)
    ensures a == b || Less(a, b) || Less(b, a)
    ensures !(Less(a, b) && Less(b, a))
    ensures !Less(a, a)
  {
    if |a| != 0 && |b| != 0 {
      LessTotal(a[1..], b[1..]);
      if a[0] == b[0] && a[1..] == b[1..] {
        assert a == [a[0]] + a[1..] == b;
      }
    } else if |a| != 0 {
      LessTotal(a[1..], a[1..]);
    }
  }

  /** The first i bytes agree, and then a ends or has the smaller byte. */
  predicate SmallerAt(a: Octets, b: Octets, i: nat) {
    i <= |a| && i < |b| && a[..i] == b[..i] && (i < |a| ==> a[i] < b[i])
  }

  lemma {:induction false} LessExactly(a: Octets, b: Octets)
    ensures Less(a, b) <==> exists i :: SmallerAt(a, b, i)
  {
    if |a| == 0 || |b| == 0 || a[0] != b[0] {
      if Less(a, b) { assert SmallerAt(a, b, 0); }
      assert forall i: nat {:trigger SmallerAt(a, b, i)} :: 0 < i && SmallerAt(a, b, i) ==> a[..i][0] == a[0] && b[..i][0] == b[0];
    } else {
      LessExactly(a[1..], b[1..]);
      if Less(a, b) {
        var i: nat :| SmallerAt(a[1..], b[1..], i);
        assert a[..i + 1] == [a[0]] + a[1..][..i] && b[..i + 1] == [b[0]] + b[1..][..i];
        assert SmallerAt(a, b, i + 1);
      }
      if i: nat :| SmallerAt(a, b, i) && i > 0 {
        assert a[1..][..i - 1] == a[..i][1..] && b[1..][..i - 1] == b[..i][1..];
        assert SmallerAt(a[1..], b[1..], i - 1);
      }
    }
  }
}
