/**
 * The round-robin choice of the source identity (`currentIpIndex` advanced modulo
 * the number of configured identities). These functions describe which identity
 * the k-th probe of a fresh verifier presents; the verifier's class keeps its
 * cursor and its history of issued identities equal to them.
 */
module Rotation {

  /** One step of the cursor over `n` identities: the next index, wrapping to 0. */
  function Advance(c: nat, n: nat): (c': nat)
    requires c < n
    ensures c' < n
  {
    if c + 1 == n then 0 else c + 1
  }

  /** The step is the source's `(currentIpIndex + 1) % ipAddresses.length`. */
  lemma AdvanceIsModulo(c: nat, n: nat)
    requires c < n
    ensures Advance(c, n) == (c + 1) % n
  {
  }

  /** The cursor after `k` probes, starting from 0. */
  function CursorAfter(n: nat, k: nat): (c: nat)
    requires n > 0
    ensures c < n
  {
    if k == 0 then 0 else Advance(CursorAfter(n, k - 1), n)
  }

  /** The identities presented by the first `k` probes, in order. */
  function Issued(ips: seq<string>, k: nat): (s: seq<string>)
    requires |ips| > 0
    ensures |s| == k
  {
    if k == 0 then [] else Issued(ips, k - 1) + [ips[CursorAfter(|ips|, k - 1)]]
  }

  lemma {:induction false} IssuedAt(ips: seq<string>, k: nat, i: nat)
    requires |ips| > 0 && i < k
    ensures Issued(ips, k)[i] == ips[CursorAfter(|ips|, i)]
  {
    if i < k - 1 {
      IssuedAt(ips, k - 1, i);
    }
  }

  /** In the first round the cursor visits 0, 1, ..., n - 1. */
  lemma {:induction false} FirstRoundCursor(n: nat, j: nat)
    requires 0 < n && j < n
    ensures CursorAfter(n, j) == j
  {
    if j > 0 {
      FirstRoundCursor(n, j - 1);
    }
  }

  /** From any cursor position, `j` more probes move the cursor `j` places around the ring. */
  lemma {:induction false} CursorShift(n: nat, k: nat, j: nat)
    requires 0 < n && j < n
    ensures var c := CursorAfter(n, k);
            CursorAfter(n, k + j) == if c + j < n then c + j else c + j - n
  {
    if j > 0 {
      CursorShift(n, k, j - 1);
    }
  }

  /** The cursor has period `n`. */
  lemma {:induction false} CursorPeriodic(n: nat, k: nat)
    requires 0 < n
    ensures CursorAfter(n, k + n) == CursorAfter(n, k)
  {
    if k == 0 {
      FirstRoundCursor(n, n - 1);
    } else {
      CursorPeriodic(n, k - 1);
    }
  }

  /** The first `n` probes present every configured identity once, in configured order. */
  lemma FirstRoundIsConfiguredOrder(ips: seq<string>)
    requires |ips| > 0
    ensures Issued(ips, |ips|) == ips
  {
    forall i | 0 <= i < |ips| ensures Issued(ips, |ips|)[i] == ips[i] {
      IssuedAt(ips, |ips|, i);
      FirstRoundCursor(|ips|, i);
    }
  }

  /** Any `n` consecutive probes present every configured identity once: the configured
      list rotated to start at the cursor's position. */
  lemma WindowIsRotation(ips: seq<string>, k: nat)
    requires |ips| > 0
    ensures var c := CursorAfter(|ips|, k);
            Issued(ips, k + |ips|)[k..] == ips[c..] + ips[..c]
  {
    var n, c := |ips|, CursorAfter(|ips|, k);
    var window, rotated := Issued(ips, k + n)[k..], ips[c..] + ips[..c];
    forall j | 0 <= j < n ensures window[j] == rotated[j] {
      WindowAt(ips, k, j);
    }
  }

  lemma WindowAt(ips: seq<string>, k: nat, j: nat)
    requires j < |ips|
    ensures var c := CursorAfter(|ips|, k);
            Issued(ips, k + |ips|)[k + j] == (ips[c..] + ips[..c])[j]
  {
    var n, c := |ips|, CursorAfter(|ips|, k);
    IssuedAt(ips, k + n, k + j);
    CursorShift(n, k, j);
  }

  /** The next `n` probes repeat the previous `n` exactly. */
  lemma NextRoundRepeats(ips: seq<string>, k: nat)
    requires |ips| > 0
    ensures Issued(ips, k + 2 * |ips|)[k + |ips|..] == Issued(ips, k + |ips|)[k..]
  {
    WindowIsRotation(ips, k);
    WindowIsRotation(ips, k + |ips|);
    CursorPeriodic(|ips|, k);
  }
}
