/** Comparisons, `std::cmp::Ordering`. */
module Orders {

  datatype Ordering = Less | Equal | Greater {
    function Reverse(): Ordering {
      match this
      case Less => Greater
      case Equal => Equal
      case Greater => Less
    }

    /** `then_with`. */
    function Then(next: Ordering): Ordering {
      if Equal? then next else this
    }
  }

  function CompareNumbers(a: int, b: int): Ordering {
    if a < b then Less else if a == b then Equal else Greater
  }

  /** Texts character by character: Rust compares the bytes of their UTF-8, which
      order the same. */
  function CompareTexts(a: string, b: string): Ordering {
    if a == "" && b == "" then Equal
    else if a == "" then Less
    else if b == "" then Greater
    else CompareNumbers(a[0] as int, b[0] as int).Then(CompareTexts(a[1..], b[1..]))
  }

  lemma {:induction false} TextsAreOrdered(a: string, b: string)
    ensures CompareTexts(a, b) == CompareTexts(b, a).Reverse()
    ensures CompareTexts(a, b) == Equal <==> a == b
  {
    if a != "" && b != "" {
      TextsAreOrdered(a[1..], b[1..]);
      assert a == [a[0]] + a[1..] && b == [b[0]] + b[1..];
    }
  }

  lemma {:induction false} TextsAreTransitive(a: string, b: string, c: string)
    requires CompareTexts(a, b) != Greater && CompareTexts(b, c) != Greater
    ensures CompareTexts(a, c) != Greater
    ensures CompareTexts(a, c) == Equal ==> CompareTexts(a, b) == Equal && CompareTexts(b, c) == Equal
  {
    if a != "" && b != "" && c != "" {
      if a[0] == b[0] == c[0] {
        TextsAreTransitive(a[1..], b[1..], c[1..]);
      }
    }
  }

  // ----- By place ------------------------------------------------------------

  /** The first `k` characters are the same, and then the first text ends, or has the
      smaller character. */
  ghost predicate DiffersAt(s: string, t: string, k: nat) {
    && k <= |s| && k < |t| && s[..k] == t[..k]
    && (k < |s| ==> s[k] < t[k])
  }

  ghost predicate TextBefore(s: string, t: string) {
    exists k: nat :: DiffersAt(s, t, k)
  }

  lemma SameStart<T>(s: seq<T>, t: seq<T>, k: nat)
    ensures 0 < k <= |s| && k <= |t| && s[..k] == t[..k] ==> s[0] == t[0]
  {
    assert 0 < k <= |s| && k <= |t| ==> s[..k][0] == s[0] && t[..k][0] == t[0];
  }

  lemma {:induction false} TextsByPlace(s: string, t: string)
    ensures CompareTexts(s, t) == Less <==> TextBefore(s, t)
  {
    if s != "" && t != "" {
      TextsByPlace(s[1..], t[1..]);
      if s[0] == t[0] {
        if k: nat :| DiffersAt(s[1..], t[1..], k) {
          assert s[..k + 1] == [s[0]] + s[1..][..k] && t[..k + 1] == [t[0]] + t[1..][..k];
          assert DiffersAt(s, t, k + 1);
        }
        if k: nat :| DiffersAt(s, t, k) {
          assert k > 0;
          assert s[1..][..k - 1] == s[..k][1..] && t[1..][..k - 1] == t[..k][1..];
          assert DiffersAt(s[1..], t[1..], k - 1);
        }
      } else {
        if s[0] < t[0] {
          assert DiffersAt(s, t, 0);
        }
        if k: nat :| DiffersAt(s, t, k) {
          SameStart(s, t, k);
        }
      }
    } else if t != "" {
      assert DiffersAt(s, t, 0);
    }
  }
}
