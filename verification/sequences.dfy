/** Sublists. */
module Sequences {
  /** Some elements of a list, in its order. */
  ghost predicate PartOf<T>(part: seq<T>, whole: seq<T>)
    decreases whole
  {
    part == [] || (whole != [] && ((part[0] == whole[0] && PartOf(part[1..], whole[1..])) || PartOf(part, whole[1..])))
  }

  lemma {:induction false} PartOfMembers<T>(part: seq<T>, whole: seq<T>)
    requires PartOf(part, whole)
    ensures forall x :: x in part ==> x in whole
    decreases whole
  {
    if part != [] {
      if part[0] == whole[0] && PartOf(part[1..], whole[1..]) {
        PartOfMembers(part[1..], whole[1..]);
        assert part == [part[0]] + part[1..];
      } else {
        PartOfMembers(part, whole[1..]);
      }
    }
  }

  /** Adding the next element of the whole, or skipping it, keeps a sublist. */
  lemma {:induction false} PartOfGrows<T>(part: seq<T>, whole: seq<T>, last: T)
    requires PartOf(part, whole)
    ensures PartOf(part + [last], whole + [last]) && PartOf(part, whole + [last])
    decreases whole
  {
    if whole == [] {
      assert [last][1..] == [];
    } else {
      assert (whole + [last])[1..] == whole[1..] + [last];
      if part != [] && part[0] == whole[0] && PartOf(part[1..], whole[1..]) {
        PartOfGrows(part[1..], whole[1..], last);
        assert (part + [last])[1..] == part[1..] + [last];
      } else {
        PartOfGrows(part, whole[1..], last);
      }
    }
  }

  lemma {:induction false} PartOfSuffix<T>(part: seq<T>, whole: seq<T>, k: nat)
    requires PartOf(part, whole) && k <= |part|
    ensures PartOf(part[k..], whole)
    decreases whole
  {
    if k < |part| {
      if part[0] == whole[0] && PartOf(part[1..], whole[1..]) {
        if k > 0 {
          PartOfSuffix(part[1..], whole[1..], k - 1);
          assert part[1..][k - 1..] == part[k..];
        } else {
          assert part[0..] == part;
        }
      } else {
        PartOfSuffix(part, whole[1..], k);
      }
    }
  }
}
