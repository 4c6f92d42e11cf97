/** Small notions several modules share. */
module Basics {
  datatype Option<T> = None | Some(value: T)

  /** `max(n, 1)` */
  function AtLeastOne(n: nat): (r: nat)
    ensures r >= 1 && r >= n
  {
    if n == 0 then 1 else n
  }

  /** `s.startswith(prefix)` */
  predicate HasPrefix(s: string, prefix: string) {
    |prefix| <= |s| && s[..|prefix|] == prefix
  }

  predicate OccursAt(s: string, t: string, i: nat) {
    i + |t| <= |s| && s[i..i + |t|] == t
  }

  predicate OccursFrom(s: string, t: string, i: nat)
    decreases |s| - i
  {
    i + |t| <= |s| && (OccursAt(s, t, i) || OccursFrom(s, t, i + 1))
  }

  /** `t in s` */
  predicate Contains(s: string, t: string) {
    OccursFrom(s, t, 0)
  }

  lemma {:induction false} OccursUpTo(s: string, t: string, i: nat, k: nat)
    requires i <= k && OccursAt(s, t, k)
    ensures OccursFrom(s, t, i)
    decreases k - i
  {
    if i < k {
      OccursUpTo(s, t, i + 1, k);
    }
  }

  lemma {:induction false} Occurrence(s: string, t: string, i: nat) returns (k: nat)
    requires OccursFrom(s, t, i)
    ensures OccursAt(s, t, k)
    decreases |s| - i
  {
    if OccursAt(s, t, i) {
      k := i;
    } else {
      k := Occurrence(s, t, i + 1);
    }
  }

  lemma ContainsIff(s: string, t: string)
    ensures Contains(s, t) <==> exists i :: OccursAt(s, t, i)
  {
    if Contains(s, t) {
      var i := Occurrence(s, t, 0);
    }
    if i :| OccursAt(s, t, i) {
      OccursUpTo(s, t, 0, i);
    }
  }

  function Elements<T>(s: seq<T>): set<T> {
    set x | x in s
  }
}
