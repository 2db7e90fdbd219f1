/** A circular doubly linked list kept in two tables of links, as the buffer cache's LRU list is. */
module Ring {

  /** `c` lists the nodes of the ring in order of `next`. */
  ghost predicate Linked(next: seq<nat>, prev: seq<nat>, c: seq<nat>) {
    && |c| > 0 && |next| == |prev|
    && (forall i :: 0 <= i < |c| ==> c[i] < |next|)
    && Distinct(c)
    && (forall i :: 0 <= i < |c| ==> NodeAt(next, prev, c, i))
  }

  ghost predicate Distinct(c: seq<nat>) {
    forall i, j :: 0 <= i < j < |c| ==> c[i] != c[j]
  }

  ghost predicate NodeAt(next: seq<nat>, prev: seq<nat>, c: seq<nat>, i: nat)
    requires i < |c| && c[i] < |next| && c[i] < |prev|
  {
    next[c[i]] == c[After(i, |c|)] && prev[c[i]] == c[Before(i, |c|)]
  }

  function After(i: nat, n: nat): nat {
    if i + 1 < n then i + 1 else 0
  }

  function Before(i: nat, n: nat): nat
    requires n > 0
  {
    if i > 0 then i - 1 else n - 1
  }

  function Remove(c: seq<nat>, k: nat): seq<nat>
    requires k < |c|
  {
    c[..k] + c[k + 1..]
  }

  lemma RemoveDistinct(c: seq<nat>, k: nat)
    requires Distinct(c) && k < |c|
    ensures Distinct(Remove(c, k)) && |Remove(c, k)| == |c| - 1
    ensures forall i :: 0 <= i < |c| - 1 ==> Remove(c, k)[i] == c[if i < k then i else i + 1]
  {
  }

  /** Node `b`, at position `k`, taken out by its neighbours' links. */
  lemma Unlink(next: seq<nat>, prev: seq<nat>, c: seq<nat>, k: nat)
    requires Linked(next, prev, c) && 0 < k < |c|
    ensures var b := c[k];
            && next[b] < |prev| && prev[b] < |next|
            && Linked(next[prev[b] := next[b]], prev[next[b] := prev[b]], Remove(c, k))
  {
    var b := c[k];
    assert NodeAt(next, prev, c, k);
    RemoveDistinct(c, k);
    var n, p := next[b], prev[b];
    var next', prev', c' := next[p := n], prev[n := p], Remove(c, k);
    forall i | 0 <= i < |c'|
      ensures c'[i] < |next'| && NodeAt(next', prev', c', i)
    {
      UnlinkAt(next, prev, c, k, i);
    }
  }

  lemma UnlinkAt(next: seq<nat>, prev: seq<nat>, c: seq<nat>, k: nat, i: nat)
    requires Linked(next, prev, c) && 0 < k < |c| && i < |c| - 1
    ensures var n, p := c[After(k, |c|)], c[k - 1];
            && n < |prev| && p < |next| && Remove(c, k)[i] < |next|
            && NodeAt(next[p := n], prev[n := p], Remove(c, k), i)
  {
    var j := if i < k then i else i + 1;
    var after := After(k, |c|);
    assert Remove(c, k)[i] == c[j] && NodeAt(next, prev, c, j);
    assert c[j] == c[k - 1] <==> j == k - 1;
    assert c[j] == c[after] <==> j == after;
  }

  /** Node `b` put in after the first node. */
  lemma LinkSecond(next: seq<nat>, prev: seq<nat>, c: seq<nat>, b: nat)
    requires Linked(next, prev, c) && b < |next| && b !in c
    ensures var first := next[c[0]];
            && first < |prev|
            && Linked(next[b := first][c[0] := b], prev[b := c[0]][first := b], [c[0], b] + c[1..])
  {
    var first := next[c[0]];
    assert NodeAt(next, prev, c, 0);
    assert Distinct([c[0], b] + c[1..]);
    var next', prev', c' := next[b := first][c[0] := b], prev[b := c[0]][first := b], [c[0], b] + c[1..];
    forall i | 0 <= i < |c'|
      ensures c'[i] < |next'| && NodeAt(next', prev', c', i)
    {
      LinkAt(next, prev, c, b, i);
    }
  }

  lemma LinkAt(next: seq<nat>, prev: seq<nat>, c: seq<nat>, b: nat, i: nat)
    requires Linked(next, prev, c) && b < |next| && b !in c && i <= |c|
    ensures var first, c' := c[After(0, |c|)], [c[0], b] + c[1..];
            && first < |prev| && c'[i] < |next|
            && NodeAt(next[b := first][c[0] := b], prev[b := c[0]][first := b], c', i)
  {
    if i >= 2 {
      assert NodeAt(next, prev, c, i - 1);
      assert ([c[0], b] + c[1..])[i] == c[i - 1];
    } else {
      assert NodeAt(next, prev, c, 0);
    }
  }

  /** Node `b`, at position `k`, moved to the second place: the four links of its removal and its insertion. */
  lemma MoveSecond(next: seq<nat>, prev: seq<nat>, c: seq<nat>, k: nat)
    requires Linked(next, prev, c) && 0 < k < |c|
    ensures var b := c[k];
            && next[b] < |prev| && prev[b] < |next|
            && var next1, prev1 := next[prev[b] := next[b]], prev[next[b] := prev[b]];
               && next1[c[0]] < |prev|
               && Linked(next1[b := next1[c[0]]][c[0] := b], prev1[b := c[0]][next1[c[0]] := b],
                         [c[0], b] + Remove(c, k)[1..])
  {
    var b := c[k];
    Unlink(next, prev, c, k);
    RemoveDistinct(c, k);
    assert b !in Remove(c, k);
    LinkSecond(next[prev[b] := next[b]], prev[next[b] := prev[b]], Remove(c, k), b);
  }
}
