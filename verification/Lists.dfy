// Sequences threaded through an array of link fields.
module Lists {
  import opened Counting

  predicate InRange(s: seq<int>, n: nat) { forall i :: 0 <= i < |s| ==> 0 <= s[i] < n }

  function RemoveAt(s: seq<int>, k: nat): seq<int>
    requires k < |s|
  {
    s[..k] + s[k + 1..]
  }

  lemma RemoveAtFacts(s: seq<int>, k: nat, n: nat)
    requires k < |s| && Distinct(s) && InRange(s, n)
    ensures Distinct(RemoveAt(s, k)) && InRange(RemoveAt(s, k), n)
    ensures forall x :: x in RemoveAt(s, k) <==> x in s && x != s[k]
  {
    var r := RemoveAt(s, k);
    assert forall i :: 0 <= i < |r| ==> r[i] == s[if i < k then i else i + 1];
    forall x | x in s && x != s[k] ensures x in r {
      var i :| 0 <= i < |s| && s[i] == x;
      assert r[if i < k then i else i - 1] == x;
    }
  }

  // ---------- Null-terminated lists; 0 is NULL ----------

  predicate Linked(next: seq<int>, s: seq<int>, i: nat)
    requires i < |s|
  {
    0 < s[i] < |next| && next[s[i]] == if i + 1 < |s| then s[i + 1] else 0
  }

  ghost predicate IsList(next: seq<int>, head: int, s: seq<int>) {
    Distinct(s) && head == (if s == [] then 0 else s[0]) && forall i: nat :: i < |s| ==> Linked(next, s, i)
  }

  lemma ListIn(next: seq<int>, head: int, s: seq<int>)
    requires IsList(next, head, s)
    ensures forall x :: x in s ==> 0 < x < |next|
    ensures head == 0 <==> s == []
  {
    forall x | x in s ensures 0 < x < |next| {
      var i :| 0 <= i < |s| && s[i] == x;
      assert Linked(next, s, i);
    }
    if s != [] { assert Linked(next, s, 0); }
  }

  lemma ListFrame(next: seq<int>, next': seq<int>, head: int, s: seq<int>)
    requires IsList(next, head, s) && |next'| == |next| && forall x :: x in s ==> 0 <= x < |next| && next'[x] == next[x]
    ensures IsList(next', head, s)
  {
    forall i: nat | i < |s| ensures Linked(next', s, i) { assert Linked(next, s, i) && s[i] in s; }
  }

  lemma PushFront(next: seq<int>, head: int, s: seq<int>, x: int)
    requires IsList(next, head, s) && x !in s && 0 < x < |next|
    ensures IsList(next[x := head], x, [x] + s)
  {
    var next', s' := next[x := head], [x] + s;
    forall i: nat | i < |s'| ensures Linked(next', s', i) {
      if i > 0 { assert Linked(next, s, i - 1) && s[i - 1] in s; }
    }
  }

  lemma PopFront(next: seq<int>, head: int, s: seq<int>)
    requires IsList(next, head, s) && s != []
    ensures 0 < head < |next| && IsList(next, next[head], s[1..]) && head !in s[1..]
  {
    assert Linked(next, s, 0);
    forall i: nat | i < |s| - 1 ensures Linked(next, s[1..], i) { assert Linked(next, s, i + 1); }
  }

  // prev->next = bdesc->next
  lemma Unlink(next: seq<int>, head: int, s: seq<int>, k: nat)
    requires IsList(next, head, s) && 0 < k < |s|
    ensures 0 <= s[k - 1] < |next| && 0 <= s[k] < |next| && IsList(next[s[k - 1] := next[s[k]]], head, RemoveAt(s, k))
  {
    assert Linked(next, s, k - 1) && Linked(next, s, k);
    assert InRange(s, |next|) by {
      forall i | 0 <= i < |s| ensures 0 <= s[i] < |next| { assert Linked(next, s, i); }
    }
    RemoveAtFacts(s, k, |next|);
    var next', s' := next[s[k - 1] := next[s[k]]], RemoveAt(s, k);
    forall i: nat | i < |s'| ensures Linked(next', s', i) {
      var o := if i < k then i else i + 1;
      assert s'[i] == s[o] && Linked(next, s, o);
      if i + 1 < |s'| { assert s'[i + 1] == s[if i + 1 < k then i + 1 else i + 2]; }
      if o != k - 1 { assert s[o] != s[k - 1]; }
    }
  }

  // Only the element before k points to element k.
  lemma PredecessorIsUnique(next: seq<int>, head: int, s: seq<int>, j: nat, k: nat)
    requires IsList(next, head, s) && j < |s| && k < |s|
    ensures 0 <= s[j] < |next| && (next[s[j]] == s[k] <==> j + 1 == k)
  {
    assert Linked(next, s, j) && Linked(next, s, k);
  }
}
