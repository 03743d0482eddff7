/**
  Byte strings as a `std::string` holds them, with the comparison `std::map<std::string, _>`
  orders its keys by and the prefix test used to disable a handler by name.
 */
module Strings {

  /** One character of a `std::string`, compared as `unsigned char` (as `std::char_traits<char>` does). */
  newtype byte = b: int | 0 <= b < 256

  /** The contents of a `std::string`. */
  type Bytes = seq<byte>

  /** The bytes of an ASCII text, for writing names down. */
  function FromAscii(s: string): (r: Bytes)
    requires forall i :: 0 <= i < |s| ==> s[i] as int < 128
    ensures |r| == |s|
    ensures forall i :: 0 <= i < |s| ==> r[i] as int == s[i] as int
  {
    seq(|s|, i requires 0 <= i < |s| => s[i] as int as byte)
  }

  /**
    Lexicographic `<` on byte strings: `std::string`'s `operator<`, the order of the keys of a
    `std::map<std::string, _>`. Bytes compare as unsigned values; a proper prefix sorts first.
   */
  predicate Less(a: Bytes, b: Bytes): (r: bool)
    ensures r ==> a != b
    ensures ProperPrefix(a, b) ==> r
    ensures !r && |a| > 0 && |b| > 0 ==> a[0] >= b[0]
    decreases |a|
  {
    if |a| == 0 then |b| > 0
    else if |b| == 0 then false
    else a[0] < b[0] || (a[0] == b[0] && Less(a[1..], b[1..]))
  }

  /** `a` is a proper prefix of `b`: `compare` runs out of `a` first. */
  ghost predicate ProperPrefix(a: Bytes, b: Bytes) {
    |a| < |b| && b[..|a|] == a
  }

  /** `a` and `b` agree before index `k` and `a` has the smaller byte at `k`. */
  ghost predicate FirstDifference(a: Bytes, b: Bytes, k: nat) {
    k < |a| && k < |b| && a[..k] == b[..k] && a[k] < b[k]
  }

  /** `Less` is `std::string::compare(a, b) < 0`: a proper prefix, or smaller at the first difference. */
  lemma {:induction false} LessIsCompare(a: Bytes, b: Bytes)
    ensures Less(a, b) <==> ProperPrefix(a, b) || exists k: nat :: FirstDifference(a, b, k)
    decreases |a|
  {
    if |a| == 0 {
      assert b[..0] == a;
    } else if |b| == 0 {
    } else if a[0] < b[0] {
      assert FirstDifference(a, b, 0);
    } else if a[0] > b[0] {
      assert !ProperPrefix(a, b) by {
        if |a| < |b| { assert b[..|a|][0] == b[0]; }
      }
      forall k: nat ensures !FirstDifference(a, b, k) {
        if 0 < k < |a| && k < |b| { assert a[..k][0] == a[0] && b[..k][0] == b[0]; }
      }
    } else {
      var a', b' := a[1..], b[1..];
      LessIsCompare(a', b');
      assert a == [a[0]] + a' && b == [b[0]] + b';
      assert ProperPrefix(a, b) <==> ProperPrefix(a', b') by {
        if |a| < |b| { assert b[..|a|] == [b[0]] + b'[..|a'|]; }
      }
      if k: nat :| FirstDifference(a', b', k) {
        assert a[..k + 1] == [a[0]] + a'[..k] && b[..k + 1] == [b[0]] + b'[..k];
        assert FirstDifference(a, b, k + 1);
      }
      if k: nat :| FirstDifference(a, b, k) {
        assert k != 0;
        assert a[..k] == [a[0]] + a'[..k - 1] && b[..k] == [b[0]] + b'[..k - 1];
        assert FirstDifference(a', b', k - 1);
      }
    }
  }

  lemma {:induction false} LessIrreflexive(a: Bytes)
    ensures !Less(a, a)
    decreases |a|
  {
    if |a| > 0 {
      LessIrreflexive(a[1..]);
    }
  }

  lemma {:induction false} LessTransitive(a: Bytes, b: Bytes, c: Bytes)
    requires Less(a, b) && Less(b, c)
    ensures Less(a, c)
    decreases |a|
  {
    if |a| > 0 && a[0] == b[0] == c[0] {
      LessTransitive(a[1..], b[1..], c[1..]);
    }
  }

  /** Any two different names are ordered one way or the other. */
  lemma {:induction false} LessTotal(a: Bytes, b: Bytes)
    requires a != b
    ensures Less(a, b) || Less(b, a)
    decreases |a|
  {
    if |a| > 0 && |b| > 0 && a[0] == b[0] {
      assert a == [a[0]] + a[1..] && b == [b[0]] + b[1..];
      LessTotal(a[1..], b[1..]);
    }
  }

  lemma LessAsymmetric(a: Bytes, b: Bytes)
    ensures !(Less(a, b) && Less(b, a))
  {
    if Less(a, b) && Less(b, a) {
      LessTransitive(a, b, a);
      LessIrreflexive(a);
    }
  }

  /** `string::startswith(s, prefix)`, whose implementation is not part of this model. */
  predicate StartsWith(s: Bytes, prefix: Bytes) {
    |prefix| <= |s| && s[..|prefix|] == prefix
  }
}
