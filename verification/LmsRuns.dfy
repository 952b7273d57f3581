/** One-time use over runs of lms_do_sign calls, with everything that the calls leave in their buffers. */
module LmsRuns {
  import opened Words
  import opened Params
  import opened Lmots
  import opened Lms
  import opened TreeCache

  /** One call of lms_do_sign, by what it leaves in the caller's buffer: a signature, the one-time part of one whose
      path could not be had, or nothing that depends on a message. */
  datatype Attempt = Completed(message: Bytes, left: Bytes) | BrokenOff(message: Bytes, left: Bytes) | Refused

  /** What DoSign does, as a step. */
  ghost predicate AttemptStep(H: HashFn, k: PrivateKey, k': PrivateKey, a: Attempt) {
    match a
    case Completed(message, left) =>
      KeyShape(k) && k.q < Pow2(HeightOfKey(k)) && OneTimePart(H, k, message) <= left && k' == k.(q := k.q + 1)
    case BrokenOff(message, left) =>
      KeyShape(k) && k.q < Pow2(HeightOfKey(k)) && left == OneTimePart(H, k, message) && k' == k
    case Refused => k' == k
  }

  /** One call of lms_do_sign as a step of a run. */
  method SignAttempt(H: HashFn, k: PrivateKey, message: Bytes, capacity: nat, cache: TreeContext?, ghost history: seq<Build>)
    returns (a: Attempt, k': PrivateKey, ghost now: seq<Build>)
    requires KeyShape(k)
    requires cache != null ==> cache.Geometry() && cache.Wellformed() && cache.Usable(history) && cache.tree == TreeOf(H, k)
    modifies if cache == null then {} else cache.AllBuffers()
    ensures AttemptStep(H, k, k', a) && (cache != null ==> cache.Usable(now))
    ensures a.Refused? <==> SignOutcome(k, capacity) != Ok
    ensures !a.Refused? ==> a.message == message && (cache == null || cache.reliable ==> a.Completed?)
  {
    hide OneTimePart, Pow2, TreeContext.Usable, TreeContext.Wellformed, Signature, SignOutcome;
    SignOutcomeOfKey(k, capacity);
    var rc, sig;
    rc, sig, k', now := DoSign(H, k, message, capacity, cache, history);
    a := if rc == Ok then Completed(message, sig)
         else if rc == ErrInvalid then BrokenOff(message, sig)
         else Refused;
  }

  ghost predicate IsSignRun(H: HashFn, ks: seq<PrivateKey>, attempts: seq<Attempt>) {
    && |ks| == |attempts| + 1
    && forall i, next :: 0 <= i < |attempts| && next == i + 1 ==> AttemptStep(H, ks[i], ks[next], attempts[i])
  }

  /** Attempts i and j left one-time parts of the same index in their buffers. */
  ghost predicate SameIndex(ks: seq<PrivateKey>, attempts: seq<Attempt>, i: nat, j: nat)
    requires |ks| == |attempts| + 1
  {
    i < j < |attempts| && !attempts[i].Refused? && !attempts[j].Refused? && ks[i].q == ks[j].q
  }

  /** j is the next attempt after i that is not refused. */
  ghost predicate NextWrites(attempts: seq<Attempt>, i: nat, j: nat) {
    i < j < |attempts| && !attempts[j].Refused? && forall k :: i < k < j ==> attempts[k].Refused?
  }

  /** No one-time key stands behind two messages in all that a run leaves in the buffers. */
  ghost predicate OneMessagePerIndex(ks: seq<PrivateKey>, attempts: seq<Attempt>)
    requires |ks| == |attempts| + 1
  {
    forall i: nat, j: nat :: SameIndex(ks, attempts, i, j) ==> attempts[i].message == attempts[j].message
  }

  /** After a call that broke off, the next one that writes is for the same message. */
  ghost predicate RetriesSame(attempts: seq<Attempt>) {
    forall i: nat, j: nat :: NextWrites(attempts, i, j) && attempts[i].BrokenOff? ==> attempts[i].message == attempts[j].message
  }

  /** The index never goes back, and moves past every signature. */
  lemma {:induction false} IndexMoves(H: HashFn, ks: seq<PrivateKey>, attempts: seq<Attempt>, i: nat, j: nat)
    requires IsSignRun(H, ks, attempts) && i <= j < |ks|
    ensures ks[i].q <= ks[j].q
    ensures ks[i].q == ks[j].q <==> forall k :: i <= k < j ==> !attempts[k].Completed?
  {
    hide OneTimePart, Pow2;
    if i < j {
      IndexMoves(H, ks, attempts, i, j - 1);
      assert AttemptStep(H, ks[j - 1], ks[j], attempts[j - 1]);
    }
  }

  /** Attempts at one index, linked through the calls that broke off between them. */
  lemma {:induction false} SameMessage(H: HashFn, ks: seq<PrivateKey>, attempts: seq<Attempt>, i: nat, j: nat)
    requires IsSignRun(H, ks, attempts) && RetriesSame(attempts) && SameIndex(ks, attempts, i, j)
    ensures attempts[i].message == attempts[j].message
    decreases j - i
  {
    hide AttemptStep;
    IndexMoves(H, ks, attempts, i, j);
    var next := NextWriter(attempts, i, j);
    if next < j {
      IndexMoves(H, ks, attempts, next, j);
      SameMessage(H, ks, attempts, next, j);
    }
  }

  lemma {:induction false} NextWriter(attempts: seq<Attempt>, i: nat, j: nat) returns (next: nat)
    requires i < j < |attempts| && !attempts[j].Refused?
    ensures next <= j && NextWrites(attempts, i, next)
  {
    next := i + 1;
    while attempts[next].Refused?
      invariant i < next <= j && forall k :: i < k < next ==> attempts[k].Refused?
      decreases j - next
    {
      next := next + 1;
    }
  }

  /** Counting what failed calls leave in the buffer, a run uses every one-time key for one message if and only if,
      after every call that broke off, the next one that writes is for the same message. */
  lemma OneTimeUse(H: HashFn, ks: seq<PrivateKey>, attempts: seq<Attempt>)
    requires IsSignRun(H, ks, attempts)
    ensures OneMessagePerIndex(ks, attempts) <==> RetriesSame(attempts)
  {
    hide AttemptStep;
    if RetriesSame(attempts) {
      forall i: nat, j: nat | SameIndex(ks, attempts, i, j)
        ensures attempts[i].message == attempts[j].message
      {
        SameMessage(H, ks, attempts, i, j);
      }
    }
    if OneMessagePerIndex(ks, attempts) {
      forall i: nat, j: nat | NextWrites(attempts, i, j) && attempts[i].BrokenOff?
        ensures attempts[i].message == attempts[j].message
      {
        IndexMoves(H, ks, attempts, i, j);
        assert SameIndex(ks, attempts, i, j);
      }
    }
  }
}
