/** Vocabulary shared by every module: optional values, name filtering and the byte order of strings. */
module Common {

  datatype Option<+T> = None | Some(value: T)

  /** The names a validity predicate accepts, in their original order and with their duplicates. */
  function Accepted(valid: string -> bool, names: seq<string>): (result: seq<string>)
    ensures forall n :: n in result <==> n in names && valid(n)
  {
    if |names| == 0 then []
    else
      var last := names[|names| - 1];
      Accepted(valid, names[..|names| - 1]) + if valid(last) then [last] else []
  }

  lemma {:induction false} AcceptedConcat(valid: string -> bool, a: seq<string>, b: seq<string>)
    ensures Accepted(valid, a + b) == Accepted(valid, a) + Accepted(valid, b)
  {
    if |b| == 0 {
      assert a + b == a;
    } else {
      assert (a + b)[..|a + b| - 1] == a + b[..|b| - 1];
      AcceptedConcat(valid, a, b[..|b| - 1]);
    }
  }

  /** Byte-wise lexicographic order: the default collation of the database and the order of std::string. */
  predicate Less(a: string, b: string)
    decreases |a|
  {
    |b| > 0 && (|a| == 0 || a[0] < b[0] || (a[0] == b[0] && Less(a[1..], b[1..])))
  }

  /** They agree up to a place where one ends before the other, or has the smaller byte. */
  ghost predicate SmallerAt(a: string, b: string, i: nat) {
    i <= |a| && i < |b| && a[..i] == b[..i] && (i == |a| || a[i] < b[i])
  }

  lemma {:induction false} LessIff(a: string, b: string)
    ensures Less(a, b) <==> exists i: nat :: SmallerAt(a, b, i)
    decreases |a|
  {
    if |a| == 0 {
      assert |b| > 0 ==> SmallerAt(a, b, 0);
    } else if |b| > 0 {
      LessIff(a[1..], b[1..]);
      assert a == [a[0]] + a[1..] && b == [b[0]] + b[1..];
      if i: nat :| SmallerAt(a[1..], b[1..], i) && a[0] == b[0] {
        assert a[..i + 1] == [a[0]] + a[1..][..i] && b[..i + 1] == [b[0]] + b[1..][..i];
        assert SmallerAt(a, b, i + 1);
      }
      if i: nat :| SmallerAt(a, b, i) {
        if i == 0 {
          assert a[0] < b[0];
        } else {
          assert a[..i][0] == b[..i][0];
          assert a[1..][..i - 1] == a[..i][1..] && b[1..][..i - 1] == b[..i][1..];
          assert SmallerAt(a[1..], b[1..], i - 1);
        }
      }
      if a[0] < b[0] {
        assert SmallerAt(a, b, 0);
      }
    }
  }

  lemma {:induction false} LessTransitive(a: string, b: string, c: string)
    requires Less(a, b) && Less(b, c)
    ensures Less(a, c)
    decreases |a|
  {
    if |a| > 0 && a[0] == b[0] == c[0] {
      LessTransitive(a[1..], b[1..], c[1..]);
    }
  }

  lemma {:induction false} LessTrichotomy(a: string, b: string)
    ensures Less(a, b) || a == b || Less(b, a)
    ensures !(Less(a, b) && Less(b, a))
    ensures Less(a, b) || Less(b, a) ==> a != b
    decreases |a|
  {
    if |a| > 0 && |b| > 0 && a[0] == b[0] {
      LessTrichotomy(a[1..], b[1..]);
      assert a == [a[0]] + a[1..] && b == [b[0]] + b[1..];
    }
  }
}
