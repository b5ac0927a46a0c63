/** What the models need to know of sums and of lists without repetition. */
module Sequences {

  ghost predicate Distinct<T>(s: seq<T>) {
    forall i, j :: 0 <= i < j < |s| ==> s[i] != s[j]
  }

  /** The list without its element at `i`. */
  ghost function Cut<T>(s: seq<T>, i: nat): seq<T>
    requires i < |s|
  {
    s[..i] + s[i + 1..]
  }

  lemma CutOut<T>(s: seq<T>, i: nat)
    requires i < |s| && Distinct(s)
    ensures Distinct(Cut(s, i)) && Cut(s, i)[i..] == s[i + 1..] && Distinct(s[i..])
    ensures s[i] !in Cut(s, i) && s[i] !in s[i + 1..] && forall x :: x in Cut(s, i) <==> x in s && x != s[i]
    ensures forall x :: x in s[i..] <==> x == s[i] || x in s[i + 1..]
  {
    forall x | x in s && x != s[i]
      ensures x in Cut(s, i)
    {
      var j :| 0 <= j < |s| && s[j] == x;
      assert Cut(s, i)[if j < i then j else j - 1] == x;
    }
  }

  lemma DistinctSnoc<T>(s: seq<T>, x: T)
    requires Distinct(s) && x !in s
    ensures Distinct(s + [x]) && forall y :: y in s + [x] <==> y in s || y == x
  {
  }

  lemma DistinctTail<T>(s: seq<T>)
    requires Distinct(s) && s != []
    ensures Distinct(s[1..]) && s[0] !in s[1..] && forall y :: y in s <==> y == s[0] || y in s[1..]
  {
    assert s == [s[0]] + s[1..];
  }

  lemma NotBefore<T>(s: seq<T>, i: nat)
    requires i < |s| && Distinct(s)
    ensures s[i] !in s[..i]
  {
  }

  // ---------------------------------------------------------------- sums

  ghost function Sum(ws: seq<int>): int {
    if ws == [] then 0 else ws[0] + Sum(ws[1..])
  }

  lemma {:induction false} SumChanges(before: seq<int>, after: seq<int>, i: nat, diff: int)
    requires |before| == |after| && i < |before| && after == before[i := before[i] + diff]
    ensures Sum(after) == Sum(before) + diff
  {
    if i > 0 {
      assert after[1..] == before[1..][i - 1 := before[1..][i - 1] + diff];
      SumChanges(before[1..], after[1..], i - 1, diff);
    } else {
      assert after[1..] == before[1..];
    }
  }

  lemma {:induction false} SumSnoc(ws: seq<int>, x: int)
    ensures Sum(ws + [x]) == Sum(ws) + x
  {
    if ws == [] {
      assert ws + [x] == [x] && [x][1..] == [];
    } else {
      assert (ws + [x])[1..] == ws[1..] + [x];
      SumSnoc(ws[1..], x);
    }
  }

  lemma {:induction false} SumNonNegative(ws: seq<int>)
    requires forall i :: 0 <= i < |ws| ==> ws[i] >= 0
    ensures Sum(ws) >= 0
    ensures (forall i :: 0 <= i < |ws| ==> ws[i] == 0) <==> Sum(ws) == 0
  {
    if ws != [] { SumNonNegative(ws[1..]); }
  }

  lemma {:induction false} SumWithout(ws: seq<int>, i: nat)
    requires i < |ws|
    ensures Sum(ws) == ws[i] + Sum(ws[..i] + ws[i + 1..])
  {
    var rest := ws[..i] + ws[i + 1..];
    if i == 0 {
      assert rest == ws[1..];
    } else {
      SumWithout(ws[1..], i - 1);
      assert rest[0] == ws[0] && rest[1..] == ws[1..][..i - 1] + ws[1..][i..];
    }
  }
}
