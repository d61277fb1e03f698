/** Strings as the source compares, sorts and formats them. */
module Text {

  // ----- order by code point -----

  predicate Less(a: string, b: string) {
    b != "" && (a == "" || a[0] < b[0] || (a[0] == b[0] && Less(a[1..], b[1..])))
  }

  lemma {:induction false} LessIrreflexive(a: string)
    ensures !Less(a, a)
  {
    if a == "" {
    } else {
      LessIrreflexive(a[1..]);
    }
  }

  lemma {:induction false} LessTransitive(a: string, b: string, c: string)
    requires Less(a, b) && Less(b, c)
    ensures Less(a, c)
  {
    if a == "" || a[0] != b[0] || b[0] != c[0] {
    } else {
      LessTransitive(a[1..], b[1..], c[1..]);
    }
  }

  lemma {:induction false} LessTotal(a: string, b: string)
    ensures a == b || Less(a, b) || Less(b, a)
  {
    if a == "" || b == "" || a[0] != b[0] {
    } else {
      LessTotal(a[1..], b[1..]);
      assert a == [a[0]] + a[1..] && b == [b[0]] + b[1..];
    }
  }

  /** The strings agree up to place k, where a ends or has the smaller character. */
  predicate SmallerAt(a: string, b: string, k: nat) {
    k <= |a| && k < |b| && a[..k] == b[..k] && (k == |a| || a[k] < b[k])
  }

  /** A proper prefix comes first, and otherwise the first difference decides. */
  lemma {:induction false} LessIff(a: string, b: string)
    ensures Less(a, b) <==> exists k: nat :: SmallerAt(a, b, k)
  {
    if a == "" || b == "" {
      assert b != "" ==> SmallerAt(a, b, 0);
    } else if a[0] != b[0] {
      assert a[0] < b[0] ==> SmallerAt(a, b, 0);
      assert forall k: nat :: k > 0 && SmallerAt(a, b, k) ==> a[..k][0] == b[..k][0];
    } else {
      LessIff(a[1..], b[1..]);
      if k: nat :| SmallerAt(a[1..], b[1..], k) {
        assert a[..k + 1] == [a[0]] + a[1..][..k] && b[..k + 1] == [b[0]] + b[1..][..k];
        assert SmallerAt(a, b, k + 1);
      }
      if k: nat :| SmallerAt(a, b, k) {
        assert k > 0;
        assert a[1..][..k - 1] == a[..k][1..] && b[1..][..k - 1] == b[..k][1..];
        assert SmallerAt(a[1..], b[1..], k - 1);
      }
    }
  }

  ghost predicate StrictlySorted(s: seq<string>) {
    forall i, j :: 0 <= i < j < |s| ==> Less(s[i], s[j])
  }

  // ----- sorting a set of keys -----

  ghost predicate IsLeast(ids: set<string>, least: string) {
    least in ids && forall id :: id in ids ==> id == least || Less(least, id)
  }

  lemma {:induction false} LeastExists(ids: set<string>)
    requires ids != {}
    ensures exists least :: IsLeast(ids, least)
    decreases |ids|
  {
    var some :| some in ids;
    var rest := ids - {some};
    if rest == {} {
      assert ids == {some};
      assert IsLeast(ids, some);
    } else {
      LeastExists(rest);
      var least :| IsLeast(rest, least);
      LessTotal(some, least);
      if Less(some, least) {
        forall id | id in ids && id != some ensures Less(some, id) {
          if id != least {
            LessTransitive(some, least, id);
          }
        }
        assert IsLeast(ids, some);
      } else {
        forall id | id in ids && id != least ensures Less(least, id) {
          assert id == some || id in rest;
        }
        assert IsLeast(ids, least);
      }
    }
  }

  ghost function Least(ids: set<string>): (least: string)
    requires ids != {}
    ensures IsLeast(ids, least)
  {
    LeastExists(ids);
    var least :| IsLeast(ids, least);
    least
  }

  /** The keys in increasing order. */
  ghost function Sorted(ids: set<string>): (s: seq<string>)
    ensures |s| == |ids|
    decreases |ids|
  {
    if ids == {} then [] else
      var least := Least(ids);
      [least] + Sorted(ids - {least})
  }

  lemma {:induction false} SortedElements(ids: set<string>)
    ensures forall id :: id in Sorted(ids) <==> id in ids
    decreases |ids|
  {
    if ids == {} {
    } else {
      var least := Least(ids);
      SortedElements(ids - {least});
    }
  }

  lemma {:induction false} SortedIsStrict(ids: set<string>)
    ensures StrictlySorted(Sorted(ids))
    decreases |ids|
  {
    if ids == {} {
    } else {
      var least := Least(ids);
      var rest := Sorted(ids - {least});
      SortedIsStrict(ids - {least});
      SortedElements(ids - {least});
      forall j | 0 <= j < |rest| ensures Less(least, rest[j]) {
        assert rest[j] in ids - {least};
      }
    }
  }

  method SortKeys(ids: set<string>) returns (s: seq<string>)
    ensures s == Sorted(ids)
  {
    s := [];
    var left := ids;
    while left != {}
      invariant s + Sorted(left) == Sorted(ids)
      decreases |left|
    {
      var least := FindLeast(left);
      LeastUnique(left, least, Least(left));
      s := s + [least];
      left := left - {least};
    }
  }

  method FindLeast(ids: set<string>) returns (least: string)
    requires ids != {}
    ensures IsLeast(ids, least)
  {
    least :| least in ids;
    var left := ids - {least};
    while left != {}
      invariant left <= ids && least in ids
      invariant IsLeast(ids - left, least)
      decreases |left|
    {
      var id :| id in left;
      var next := if Less(id, least) then id else least;
      LessTotal(id, least);
      forall other | other in ids - left && other != next ensures Less(next, other) {
        if next == id && other != least {
          LessTransitive(id, least, other);
        }
      }
      left := left - {id};
      least := next;
    }
    assert ids - left == ids;
  }

  lemma LeastUnique(ids: set<string>, a: string, b: string)
    requires IsLeast(ids, a) && IsLeast(ids, b)
    ensures a == b
  {
    if a != b {
      LessTransitive(a, b, a);
      LessIrreflexive(a);
    }
  }

  // ----- decimal numerals -----

  function Digit(d: nat): char
    requires d < 10
  {
    "0123456789"[d]
  }

  function DigitValue(c: char): nat {
    if '0' <= c <= '9' then (c as int) - ('0' as int) else 0
  }

  function Decimal(n: nat): string {
    if n < 10 then [Digit(n)] else Decimal(n / 10) + [Digit(n % 10)]
  }

  lemma {:induction false} DecimalDigits(n: nat)
    ensures Decimal(n) != "" && forall i :: 0 <= i < |Decimal(n)| ==> '0' <= Decimal(n)[i] <= '9'
  {
    if n < 10 {
    } else {
      DecimalDigits(n / 10);
    }
  }

  function Padded(s: string, width: nat): string
    decreases width - |s|
  {
    if |s| >= width then s else Padded("0" + s, width)
  }

  function Value(s: string): nat {
    if s == "" then 0 else 10 * Value(s[..|s| - 1]) + DigitValue(s[|s| - 1])
  }

  lemma {:induction false} DecimalValue(n: nat)
    ensures Value(Decimal(n)) == n
  {
    if n >= 10 {
      DecimalValue(n / 10);
      var s := Decimal(n);
      assert s[..|s| - 1] == Decimal(n / 10);
    } else {
      assert Value("") == 0;
      assert Decimal(n)[..0] == "";
    }
  }

  lemma {:induction false} LeadingZero(s: string)
    ensures Value("0" + s) == Value(s)
  {
    if s == "" {
      assert ("0" + s)[..0] == "";
    } else {
      LeadingZero(s[..|s| - 1]);
      assert ("0" + s)[..|s|] == "0" + s[..|s| - 1];
    }
  }

  lemma {:induction false} PaddedValue(s: string, width: nat)
    ensures Value(Padded(s, width)) == Value(s)
    decreases width - |s|
  {
    if |s| >= width {
    } else {
      LeadingZero(s);
      PaddedValue("0" + s, width);
    }
  }
}
