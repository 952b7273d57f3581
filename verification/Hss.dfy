/** The hierarchical scheme of src/hss.c, section 6 of RFC 8554: a chain of LMS keys, each certifying
    the next, exhausted levels replaced under a fresh generation. */
module Hss {
  import opened Words
  import opened Params
  import opened Lmots
  import opened Lms

  const MAX_LEVELS: nat := 8

  // ---- generation counters ----

  /** A 32-byte generation as a number, big-endian. */
  function Number(b: Bytes): nat {
    if |b| == 0 then 0 else Number(b[..|b| - 1]) * 256 + b[|b| - 1]
  }

  function Base256(n: nat): (r: nat)
    ensures r >= 1
  {
    if n == 0 then 1 else Base256(n - 1) * 256
  }

  lemma {:induction false} NumberBound(b: Bytes)
    ensures Number(b) < Base256(|b|)
  {
    if |b| > 0 {
      NumberBound(b[..|b| - 1]);
    }
  }

  lemma {:induction false} NumberTail(a: Bytes, b: Bytes)
    ensures Number(a + b) == Number(a) * Base256(|b|) + Number(b)
    decreases |b|
  {
    if |b| == 0 {
      assert a + b == a;
    } else {
      var n := |b| - 1;
      assert (a + b)[..|a + b| - 1] == a + b[..n];
      NumberTail(a, b[..n]);
      ShiftTail(Number(a), Base256(n), Number(b[..n]));
    }
  }

  lemma ShiftTail(a: nat, p: nat, r: nat)
    ensures (a * p + r) * 256 == a * (p * 256) + r * 256
  {
  }

  lemma {:induction false} NumberOfZeros(n: nat)
    ensures Number(Fill(n, 0)) == 0
  {
    if n > 0 {
      NumberOfZeros(n - 1);
      assert Fill(n, 0)[..n - 1] == Fill(n - 1, 0);
    }
  }

  lemma {:induction false} NumberOfMax(n: nat)
    ensures Number(Fill(n, 0xff)) == Base256(n) - 1
  {
    if n > 0 {
      NumberOfMax(n - 1);
      assert Fill(n, 0xff)[..n - 1] == Fill(n - 1, 0xff);
    }
  }

  /** increment_generation: add one, the carry running from the last byte to the first; exhausted on wrap. */
  method IncrementGeneration(g: Bytes) returns (ok: bool, g': Bytes)
    ensures |g'| == |g|
    ensures ok <==> Number(g) + 1 < Base256(|g|)
    ensures Number(g') == if ok then Number(g) + 1 else 0
  {
    hide Number, Base256, Fill;
    g' := g;
    var i := |g|;
    FillNone();
    assert g[i..] == [];
    while i > 0
      invariant 0 <= i <= |g| == |g'|
      invariant g'[..i] == g[..i] && g[i..] == Fill(|g| - i, 0xff) && g'[i..] == Fill(|g| - i, 0)
    {
      i := i - 1;
      var was := g'[i];
      assert was == g'[..i + 1][i] == g[i];
      ghost var tail := g'[i + 1..];
      g' := g'[i := if was == 0xff then 0 else was + 1];
      assert g'[..i] == g[..i + 1][..i] && g'[i + 1..] == tail;
      if g'[i] != 0 {
        Carried(g, g', i);
        return true, g';
      }
      TailGrows(g, i, 0xff);
      TailGrows(g', i, 0);
    }
    assert g == g[0..] && g' == g'[0..];
    NumberOfMax(|g|);
    NumberOfZeros(|g|);
    return false, g';
  }

  lemma FillNone()
    ensures Fill(0, 0) == [] && Fill(0, 0xff) == []
  {
  }

  lemma TailGrows(g: Bytes, i: nat, v: byte)
    requires i < |g| && g[i] == v && g[i + 1..] == Fill(|g| - i - 1, v)
    ensures g[i..] == Fill(|g| - i, v)
  {
    hide Fill;
    assert g[i..] == [v] + g[i + 1..];
    FillFront(|g| - i - 1, v);
  }

  lemma {:induction false} FillFront(n: nat, v: byte)
    ensures [v] + Fill(n, v) == Fill(n + 1, v)
  {
    if n > 0 {
      FillFront(n - 1, v);
      assert [v] + Fill(n, v) == [v] + Fill(n - 1, v) + [v];
    }
  }

  lemma NumberSnoc(b: Bytes, v: byte)
    ensures Number(b + [v]) == Number(b) * 256 + v
  {
    assert (b + [v])[..|b|] == b;
  }

  lemma Carried(g: Bytes, g': Bytes, i: nat)
    requires |g'| == |g| && i < |g| && g[i] < 0xff && g'[i] as int == g[i] + 1
    requires g'[..i] == g[..i]
    requires g[i + 1..] == Fill(|g| - i - 1, 0xff) && g'[i + 1..] == Fill(|g| - i - 1, 0)
    ensures Number(g') == Number(g) + 1 < Base256(|g|)
  {
    hide Number, Base256, Fill;
    var n := |g| - i - 1;
    var p := Base256(n);
    NumberBound(g');
    NumberSplit(g, i);
    NumberSplit(g', i);
    NumberOfMax(n);
    NumberOfZeros(n);
    NumberSnoc(g[..i], g[i]);
    NumberSnoc(g[..i], g'[i]);
    var x, y := Number(g[..i] + [g[i]]), Number(g[..i] + [g'[i]]);
    assert y == x + 1;
    assert g'[..i] + [g'[i]] == g[..i] + [g'[i]];
    CarrySum(x, y, p, Number(g), Number(g'));
  }

  /** A number cut behind byte i. */
  lemma NumberSplit(g: Bytes, i: nat)
    requires i < |g|
    ensures Number(g) == Number(g[..i] + [g[i]]) * Base256(|g| - i - 1) + Number(g[i + 1..])
  {
    hide Number, Base256;
    NumberTail(g[..i] + [g[i]], g[i + 1..]);
    assert g == g[..i] + [g[i]] + g[i + 1..];
  }

  lemma CarrySum(x: nat, y: nat, p: nat, before: nat, after: nat)
    requires y == x + 1 && p >= 1 && before == x * p + (p - 1) && after == y * p + 0
    ensures after == before + 1
  {
    Distribute(x, 1, p);
  }

  // ---- one level ----

  /** derive_level_material: identifier and seed of a level's key from the master seed and its generation. */
  function Material(H: HashFn, alg: HashAlg, master: Bytes, level: nat, generation: Bytes, tag: byte): Digest {
    H(alg, master + StoreU32(level) + generation + [tag])
  }

  function LevelKey(H: HashFn, master: Bytes, lmsType: nat, otsType: nat, level: nat, generation: Bytes): (k: PrivateKey)
    requires Compatible(lmsType, otsType)
    ensures KeyShape(k) && k.q == 0 && k.lmsType == lmsType && k.otsType == otsType
  {
    var alg := LmsParamOf(lmsType).value.alg;
    var I: Digest := Material(H, alg, master, level, generation, 0x49);
    PrivateKey(lmsType, otsType, I[..16], Material(H, alg, master, level, generation, 0x53), 0)
  }

  /** The one-time key behind a signature: level, generation of the level's key, index. */
  datatype Use = Use(level: nat, generation: Bytes, q: nat)

  function Capacity(lmsType: nat): nat
    requires LmsParamOf(lmsType).Some?
  {
    Pow2(LmsParamOf(lmsType).value.height)
  }

  lemma CapacityBounds(lmsType: nat)
    requires LmsParamOf(lmsType).Some?
    ensures 32 <= Capacity(lmsType)
  {
    Pow2Monotone(5, LmsParamOf(lmsType).value.height);
    assert Pow2(5) == 32;
  }

  /** LMS_MAX_SIGNATURE_LEN, the size of a certificate buffer. */
  const MAX_SIGNATURE_LEN: nat := 4 + 4 + 32 + 265 * 32 + 4 + 25 * 32

  lemma SignatureFits(lmsType: nat, otsType: nat)
    requires Compatible(lmsType, otsType)
    ensures 0 < SignatureLen(lmsType, otsType) <= MAX_SIGNATURE_LEN
  {
  }

  lemma PublicKeepsIndex(H: HashFn, k: PrivateKey, q: nat)
    requires KeyShape(k)
    ensures KeyShape(k.(q := q)) && PublicOf(H, k.(q := q)) == PublicOf(H, k)
  {
  }

  // ---- the private key as a value ----

  /** What never changes after init. */
  datatype Hierarchy = Hierarchy(H: HashFn, levels: nat, master: Bytes, lmsTypes: seq<nat>, otsTypes: seq<nat>)

  /** What signing changes. Two components are ghost in the class: `spent` maps every one-time key used so far to what
      it signed, and `certUse` names the one-time key that made each certificate. */
  datatype State = State(generation: seq<Bytes>, keys: seq<PrivateKey>, pubs: seq<PublicKey>, certSig: seq<Bytes>,
                         spent: map<Use, Bytes>, certUse: seq<Use>)

  ghost predicate ParamsOk(p: Hierarchy) {
    && 1 <= p.levels <= MAX_LEVELS && |p.lmsTypes| == |p.otsTypes| == p.levels
    && forall i :: 0 <= i < p.levels ==> Compatible(p.lmsTypes[i], p.otsTypes[i])
  }

  ghost predicate Sizes(p: Hierarchy, s: State) {
    |s.generation| == |s.keys| == |s.pubs| == p.levels && |s.certSig| == |s.certUse| == p.levels - 1
  }

  /** The key a level derives from its generation. */
  function Derived(p: Hierarchy, i: nat, generation: Bytes): (k: PrivateKey)
    requires i < |p.lmsTypes| && i < |p.otsTypes| && Compatible(p.lmsTypes[i], p.otsTypes[i])
    ensures KeyShape(k) && k.q == 0 && k.lmsType == p.lmsTypes[i] && k.otsType == p.otsTypes[i]
  {
    LevelKey(p.H, p.master, p.lmsTypes[i], p.otsTypes[i], i, generation)
  }

  /** Level i holds the derived key of its generation at some index, and that key's public half. */
  ghost predicate LevelOk(p: Hierarchy, s: State, i: nat)
    requires ParamsOk(p) && Sizes(p, s) && i < p.levels
  {
    && |s.generation[i]| == 32
    && s.keys[i] == Derived(p, i, s.generation[i]).(q := s.keys[i].q)
    && s.keys[i].q <= Capacity(p.lmsTypes[i])
    && s.pubs[i] == PublicOf(p.H, Derived(p, i, s.generation[i]))
  }

  ghost predicate Shape(p: Hierarchy, s: State) {
    ParamsOk(p) && Sizes(p, s) && forall i :: 0 <= i < p.levels ==> LevelOk(p, s, i)
  }

  ghost predicate UseOk(p: Hierarchy, u: Use) {
    ParamsOk(p) && u.level < p.levels && |u.generation| == 32 && u.q < Capacity(p.lmsTypes[u.level])
  }

  /** The LMS signature that the one-time key u makes of a message. */
  ghost function UseSignature(p: Hierarchy, u: Use, message: Bytes): Bytes
    requires UseOk(p, u)
  {
    Signature(p.H, Derived(p, u.level, u.generation).(q := u.q), message)
  }

  /** Certificate i is the signature of a spent one-time key of the current key of level i, made of the public key of
      level i + 1. */
  ghost predicate Made(p: Hierarchy, s: State, i: nat)
    requires ParamsOk(p) && Sizes(p, s) && i < p.levels - 1
  {
    var u, child := s.certUse[i], SerializePublic(s.pubs[i + 1]);
    && UseOk(p, u) && u.level == i && u.generation == s.generation[i]
    && u in s.spent && s.spent[u] == child
    && s.certSig[i] == UseSignature(p, u, child)
  }

  /** Certificate i was made by a spent one-time key, and verifies the public key of level i + 1 under that of level i. */
  ghost predicate Certified(p: Hierarchy, s: State, i: nat)
    requires ParamsOk(p) && Sizes(p, s) && i < p.levels - 1
  {
    && Made(p, s, i)
    && Accepts(p.H, s.pubs[i], SerializePublic(s.pubs[i + 1]), s.certSig[i])
    && |s.certSig[i]| == SignatureLen(p.lmsTypes[i], p.otsTypes[i])
  }

  /** All links hold but, possibly, the one below level `gap`. */
  ghost predicate ChainExcept(p: Hierarchy, s: State, gap: int)
    requires ParamsOk(p) && Sizes(p, s)
  {
    forall i :: 0 <= i < p.levels - 1 && i != gap ==> Certified(p, s, i)
  }

  ghost predicate Behind(p: Hierarchy, s: State, u: Use)
    requires Sizes(p, s)
  {
    u.level < p.levels &&
    (Number(u.generation) < Number(s.generation[u.level])
     || (u.generation == s.generation[u.level] && u.q < s.keys[u.level].q))
  }

  /** What was signed lies behind the current generation and index of its level. */
  ghost predicate SpentBehind(p: Hierarchy, s: State)
    requires Sizes(p, s)
  {
    forall u :: u in s.spent ==> Behind(p, s, u)
  }

  ghost predicate Invariant(p: Hierarchy, s: State) {
    Shape(p, s) && ChainExcept(p, s, -1) && SpentBehind(p, s)
  }

  /** Old signatures stay; none is made over again for another message. */
  ghost predicate Extends(before: map<Use, Bytes>, after: map<Use, Bytes>) {
    forall u :: u in before ==> u in after && after[u] == before[u]
  }

  /** The use that the next signature of level i makes. */
  ghost function NextUse(p: Hierarchy, s: State, i: nat): Use
    requires Sizes(p, s) && i < p.levels
  {
    Use(i, s.generation[i], s.keys[i].q)
  }

  /** Level i signs a message. */
  ghost function AfterUse(p: Hierarchy, s: State, i: nat, message: Bytes): State
    requires Sizes(p, s) && i < p.levels
  {
    s.(keys := s.keys[i := s.keys[i].(q := s.keys[i].q + 1)], spent := s.spent[NextUse(p, s, i) := message])
  }

  ghost predicate CanCertify(p: Hierarchy, s: State, parent: nat) {
    Shape(p, s) && parent + 1 < p.levels && s.keys[parent].q < Capacity(p.lmsTypes[parent])
  }

  /** sign_child_certificate */
  ghost function AfterCertificate(p: Hierarchy, s: State, parent: nat): State
    requires CanCertify(p, s, parent)
  {
    assert LevelOk(p, s, parent);
    var message := SerializePublic(s.pubs[parent + 1]);
    AfterUse(p, s, parent, message).(certSig := s.certSig[parent := Signature(p.H, s.keys[parent], message)],
                                     certUse := s.certUse[parent := NextUse(p, s, parent)])
  }

  /** build_level under a new generation */
  ghost function AfterBuild(p: Hierarchy, s: State, i: nat, generation: Bytes): State
    requires ParamsOk(p) && Sizes(p, s) && i < p.levels
  {
    var k := Derived(p, i, generation);
    s.(generation := s.generation[i := generation], keys := s.keys[i := k], pubs := s.pubs[i := PublicOf(p.H, k)])
  }

  lemma UseKeeps(p: Hierarchy, s: State, i: nat, message: Bytes)
    requires Shape(p, s) && SpentBehind(p, s) && i < p.levels && s.keys[i].q < Capacity(p.lmsTypes[i])
    ensures var s' := AfterUse(p, s, i, message);
            && Shape(p, s') && SpentBehind(p, s')
            && NextUse(p, s, i) !in s.spent && Extends(s.spent, s'.spent)
  {
    hide PublicOf, Number, Derived, Capacity;
    var s' := AfterUse(p, s, i, message);
    forall k | 0 <= k < p.levels
      ensures LevelOk(p, s', k)
    {
      assert LevelOk(p, s, k);
    }
    assert !Behind(p, s, NextUse(p, s, i));
    forall u | u in s'.spent
      ensures Behind(p, s', u)
    {
      if u != NextUse(p, s, i) {
        assert Behind(p, s, u);
      }
    }
  }

  lemma CertificateKeeps(p: Hierarchy, s: State, parent: nat)
    requires Shape(p, s) && SpentBehind(p, s) && parent + 1 < p.levels && s.keys[parent].q < Capacity(p.lmsTypes[parent])
    ensures var s' := AfterCertificate(p, s, parent);
            && Shape(p, s') && SpentBehind(p, s') && Certified(p, s', parent)
            && NextUse(p, s, parent) !in s.spent && Extends(s.spent, s'.spent)
            && forall i :: 0 <= i < p.levels - 1 && i != parent && Certified(p, s, i) ==> Certified(p, s', i)
  {
    hide PublicOf, Number, Derived, Behind, Accepts, Signature, NextUse, SerializePublic, Made, UseSignature, UseOk;
    var message := SerializePublic(s.pubs[parent + 1]);
    var s1 := AfterUse(p, s, parent, message);
    var s' := AfterCertificate(p, s, parent);
    UseKeeps(p, s, parent, message);
    forall i | 0 <= i < p.levels
      ensures LevelOk(p, s', i)
    {
      assert LevelOk(p, s1, i);
    }
    forall u | u in s'.spent
      ensures Behind(p, s', u)
    {
      assert Behind(p, s1, u);
      SameBehind(p, s1, s', u);
    }
    LinkHolds(p, s, parent, message);
    MadeNow(p, s, parent);
    forall i | 0 <= i < p.levels - 1 && i != parent && Certified(p, s, i)
      ensures Certified(p, s', i)
    {
      MadeStays(p, s, s', i);
    }
  }

  lemma MadeNow(p: Hierarchy, s: State, parent: nat)
    requires CanCertify(p, s, parent)
    ensures Sizes(p, AfterCertificate(p, s, parent)) && Made(p, AfterCertificate(p, s, parent), parent)
  {
    hide PublicOf, Derived, Accepts, Signature, SerializePublic, UseSignature, LevelOk, UseOk;
    LinkHolds(p, s, parent, SerializePublic(s.pubs[parent + 1]));
  }

  /** A certificate stays made by its one-time key when signatures are added. */
  lemma MadeStays(p: Hierarchy, s: State, s': State, i: nat)
    requires ParamsOk(p) && Sizes(p, s) && Sizes(p, s') && i < p.levels - 1 && Made(p, s, i)
    requires s'.certUse[i] == s.certUse[i] && s'.certSig[i] == s.certSig[i] && s'.generation[i] == s.generation[i]
    requires s'.pubs[i + 1] == s.pubs[i + 1] && Extends(s.spent, s'.spent)
    ensures Made(p, s', i)
  {
    hide UseSignature, UseOk, SerializePublic;
  }

  lemma SameBehind(p: Hierarchy, s: State, s': State, u: Use)
    requires Sizes(p, s) && Sizes(p, s') && s'.generation == s.generation && s'.keys == s.keys
    ensures Behind(p, s, u) == Behind(p, s', u)
  {
  }

  lemma LinkHolds(p: Hierarchy, s: State, parent: nat, message: Bytes)
    requires Shape(p, s) && parent < p.levels && s.keys[parent].q < Capacity(p.lmsTypes[parent])
    ensures KeyShape(s.keys[parent]) && s.keys[parent].q < Pow2(HeightOfKey(s.keys[parent]))
    ensures Accepts(p.H, s.pubs[parent], message, Signature(p.H, s.keys[parent], message))
    ensures |Signature(p.H, s.keys[parent], message)| == SignatureLen(p.lmsTypes[parent], p.otsTypes[parent])
    ensures UseOk(p, NextUse(p, s, parent))
    ensures Signature(p.H, s.keys[parent], message) == UseSignature(p, NextUse(p, s, parent), message)
  {
    hide PublicOf, Accepts, Signature;
    assert LevelOk(p, s, parent);
    var k := Derived(p, parent, s.generation[parent]);
    PublicKeepsIndex(p.H, k, s.keys[parent].q);
    SignThenVerify(p.H, s.keys[parent], message);
  }

  /** A level rebuilt under a later generation: everything signed so far stays behind it, and only the links
      next to it are open. */
  lemma BuildKeeps(p: Hierarchy, s: State, i: nat, generation: Bytes)
    requires Shape(p, s) && SpentBehind(p, s) && i < p.levels
    requires |generation| == 32 && Number(generation) > Number(s.generation[i])
    ensures var s' := AfterBuild(p, s, i, generation);
            && Shape(p, s') && SpentBehind(p, s') && s'.keys[i].q == 0
            && forall k :: 0 <= k < p.levels - 1 && k != i && k != i - 1 && Certified(p, s, k) ==> Certified(p, s', k)
  {
    hide LevelOk, Behind, Certified, Number, AfterBuild;
    var s' := AfterBuild(p, s, i, generation);
    BuildSizes(p, s, i, generation);
    forall k | 0 <= k < p.levels
      ensures LevelOk(p, s', k)
    {
      BuildLevelOk(p, s, i, generation, k);
    }
    forall u | u in s'.spent
      ensures Behind(p, s', u)
    {
      BuildBehind(p, s, i, generation, u);
    }
    forall k | 0 <= k < p.levels - 1 && k != i && k != i - 1 && Certified(p, s, k)
      ensures Certified(p, s', k)
    {
      BuildCertified(p, s, i, generation, k);
    }
  }

  lemma BuildSizes(p: Hierarchy, s: State, i: nat, generation: Bytes)
    requires ParamsOk(p) && Sizes(p, s) && i < p.levels
    ensures var s' := AfterBuild(p, s, i, generation); Sizes(p, s') && s'.keys[i].q == 0 && s'.spent == s.spent
  {
    hide PublicOf;
  }

  lemma BuildLevelOk(p: Hierarchy, s: State, i: nat, generation: Bytes, k: nat)
    requires ParamsOk(p) && Sizes(p, s) && i < p.levels && |generation| == 32 && k < p.levels && LevelOk(p, s, k)
    ensures Sizes(p, AfterBuild(p, s, i, generation)) && LevelOk(p, AfterBuild(p, s, i, generation), k)
  {
    hide PublicOf;
  }

  lemma BuildBehind(p: Hierarchy, s: State, i: nat, generation: Bytes, u: Use)
    requires ParamsOk(p) && Sizes(p, s) && i < p.levels && Number(generation) > Number(s.generation[i]) && Behind(p, s, u)
    ensures Sizes(p, AfterBuild(p, s, i, generation)) && Behind(p, AfterBuild(p, s, i, generation), u)
  {
    hide PublicOf, Number, Derived;
  }

  lemma BuildCertified(p: Hierarchy, s: State, i: nat, generation: Bytes, k: nat)
    requires ParamsOk(p) && Sizes(p, s) && i < p.levels && k < p.levels - 1 && k != i && k != i - 1 && Certified(p, s, k)
    ensures Sizes(p, AfterBuild(p, s, i, generation)) && Certified(p, AfterBuild(p, s, i, generation), k)
  {
    hide PublicOf, Accepts, SerializePublic, UseSignature, UseOk, SignatureLen;
  }

  /** A renewal of level i (build, then certificate by the level above) closes the link above the level
      and opens the one below it. */
  lemma RenewLinks(p: Hierarchy, s: State, s1: State, s2: State, i: nat)
    requires ParamsOk(p) && Sizes(p, s) && Sizes(p, s1) && Sizes(p, s2) && 1 <= i < p.levels
    requires ChainExcept(p, s, i - 1)
    requires forall k :: 0 <= k < p.levels - 1 && k != i && k != i - 1 && Certified(p, s, k) ==> Certified(p, s1, k)
    requires forall k :: 0 <= k < p.levels - 1 && k != i - 1 && Certified(p, s1, k) ==> Certified(p, s2, k)
    requires Certified(p, s2, i - 1)
    ensures ChainExcept(p, s2, i)
  {
    hide Certified;
  }

  lemma CertificateChanges(p: Hierarchy, s: State, parent: nat)
    requires Shape(p, s) && parent + 1 < p.levels && s.keys[parent].q < Capacity(p.lmsTypes[parent])
    ensures var s' := AfterCertificate(p, s, parent);
            && s'.generation == s.generation && s'.pubs == s.pubs
            && |s'.keys| == |s.keys| && s'.keys[parent].q == s.keys[parent].q + 1
            && forall k :: 0 <= k < p.levels && k != parent ==> s'.keys[k] == s.keys[k]
  {
    hide Signature, SerializePublic, Capacity;
  }

  lemma ShapeParts(p: Hierarchy, s: State)
    requires Shape(p, s)
    ensures ParamsOk(p) && Sizes(p, s)
  {
  }

  lemma ShapeLevel(p: Hierarchy, s: State, i: nat)
    requires Shape(p, s) && i < p.levels
    ensures ParamsOk(p) && Sizes(p, s) && |s.generation[i]| == 32
  {
    assert LevelOk(p, s, i);
  }

  /** Every generation has n increments left. */
  ghost predicate Margin(p: Hierarchy, s: State, n: nat)
    requires Sizes(p, s)
  {
    forall i :: 0 <= i < p.levels ==> Number(s.generation[i]) + n < Base256(32)
  }

  /** Some level from 0 to `level` still has an unused index. */
  ghost predicate SomeLeft(p: Hierarchy, s: State, level: nat)
    requires ParamsOk(p) && Sizes(p, s) && level < p.levels
  {
    exists i :: 0 <= i <= level && s.keys[i].q < Capacity(p.lmsTypes[i])
  }

  /** Generations never go back, and advance by at most n. */
  ghost predicate Advanced(p: Hierarchy, s: State, s': State, n: nat)
    requires Sizes(p, s) && Sizes(p, s')
  {
    forall i :: 0 <= i < p.levels ==>
      Number(s.generation[i]) <= Number(s'.generation[i]) <= Number(s.generation[i]) + n
  }

  // ---- renewals ----

  /** What one renewal of level i does. */
  ghost predicate Renewed(p: Hierarchy, s: State, s': State, i: nat)
    requires ParamsOk(p) && Sizes(p, s) && 1 <= i < p.levels
  {
    && Shape(p, s') && Sizes(p, s') && SpentBehind(p, s') && ChainExcept(p, s', i) && Extends(s.spent, s'.spent)
    && Number(s'.generation[i]) == Number(s.generation[i]) + 1
    && s'.keys[i].q == 0 && s'.keys[i - 1].q == s.keys[i - 1].q + 1
    && s'.pubs[0] == s.pubs[0]
    && (forall k :: 0 <= k < p.levels && k != i ==> s'.generation[k] == s.generation[k])
    && (forall k :: 0 <= k < p.levels && k != i && k != i - 1 ==> s'.keys[k] == s.keys[k])
  }

  /** Levels level .. j - 1 are renewed once, the rest not yet. */
  ghost predicate Renewing(p: Hierarchy, s: State, s': State, level: nat, j: nat)
    requires ParamsOk(p) && Sizes(p, s) && Sizes(p, s') && 1 <= level < j <= p.levels
  {
    && Shape(p, s') && SpentBehind(p, s') && ChainExcept(p, s', j - 1) && Extends(s.spent, s'.spent)
    && s'.keys[j - 1].q == 0 && s'.keys[level].q <= 1 && s'.pubs[0] == s.pubs[0]
    && Advanced(p, s, s', 1)
    && (forall k :: j <= k < p.levels ==> s'.generation[k] == s.generation[k])
  }

  lemma RenewDone(p: Hierarchy, s: State, s1: State, s2: State, i: nat)
    requires ParamsOk(p) && Sizes(p, s) && Sizes(p, s1) && Sizes(p, s2) && 1 <= i < p.levels
    requires s1.generation == s.generation[i := s1.generation[i]] && s1.pubs == s.pubs[i := s1.pubs[i]]
    requires s1.keys == s.keys[i := s1.keys[i]] && s1.keys[i].q == 0
    requires Number(s1.generation[i]) == Number(s.generation[i]) + 1
    requires s2.generation == s1.generation && s2.pubs == s1.pubs
    requires s2.keys[i - 1].q == s1.keys[i - 1].q + 1
    requires forall k :: 0 <= k < p.levels && k != i - 1 ==> s2.keys[k] == s1.keys[k]
    requires Shape(p, s2) && SpentBehind(p, s2) && ChainExcept(p, s2, i) && Extends(s.spent, s2.spent)
    ensures Renewed(p, s, s2, i)
  {
    hide Shape, ChainExcept, SpentBehind, Number, Extends;
  }

  lemma BuildChanges(p: Hierarchy, s: State, i: nat, g: Bytes)
    requires ParamsOk(p) && Sizes(p, s) && i < p.levels
    ensures var s1 := AfterBuild(p, s, i, g);
            && Sizes(p, s1) && s1.spent == s.spent && s1.generation == s.generation[i := g]
            && s1.keys == s.keys[i := s1.keys[i]] && s1.pubs == s.pubs[i := s1.pubs[i]]
  {
    hide Derived, PublicOf, Compatible;
  }

  lemma RenewFirst(p: Hierarchy, s: State, after: State, level: nat)
    requires ParamsOk(p) && Sizes(p, s) && 1 <= level < p.levels && Renewed(p, s, after, level)
    ensures Sizes(p, after) && Renewing(p, s, after, level, level + 1)
  {
    hide SpentBehind, ChainExcept, Number, LevelOk, Shape;
  }

  lemma RenewingParts(p: Hierarchy, s: State, s': State, level: nat, j: nat)
    requires ParamsOk(p) && Sizes(p, s) && Sizes(p, s') && 1 <= level < j < p.levels && Renewing(p, s, s', level, j)
    ensures Shape(p, s') && SpentBehind(p, s') && ChainExcept(p, s', j - 1)
    ensures s'.keys[j - 1].q < Capacity(p.lmsTypes[j - 1]) && s'.generation[j] == s.generation[j]
  {
    hide Shape, SpentBehind, ChainExcept, Number, Capacity, Extends;
    CapacityBounds(p.lmsTypes[j - 1]);
  }

  lemma RenewNext(p: Hierarchy, s: State, before: State, after: State, level: nat, j: nat)
    requires ParamsOk(p) && Sizes(p, s) && Sizes(p, before) && 1 <= level < j < p.levels
    requires Renewing(p, s, before, level, j) && Renewed(p, before, after, j)
    ensures Sizes(p, after) && Renewing(p, s, after, level, j + 1)
  {
    hide SpentBehind, ChainExcept, Number, LevelOk;
  }

  /** The whole second half. */
  ghost predicate RenewedFrom(p: Hierarchy, s: State, s': State, level: nat)
    requires ParamsOk(p) && Sizes(p, s) && level < p.levels
  {
    && Invariant(p, s') && Sizes(p, s') && Extends(s.spent, s'.spent) && s'.keys[level].q <= 1 && s'.pubs[0] == s.pubs[0]
    && Advanced(p, s, s', 1)
  }

  /** The level is usable, the invariant holds, and nothing signed before is lost. */
  ghost predicate Refreshed(p: Hierarchy, s: State, s': State, level: nat)
    requires ParamsOk(p) && Sizes(p, s) && level < p.levels
  {
    && Invariant(p, s') && Sizes(p, s') && Extends(s.spent, s'.spent) && s'.keys[level].q < Capacity(p.lmsTypes[level])
    && s'.pubs[0] == s.pubs[0] && Advanced(p, s, s', level)
  }

  lemma ValidParts(p: Hierarchy, s: State)
    requires Invariant(p, s)
    ensures Shape(p, s) && ParamsOk(p) && Sizes(p, s) && SpentBehind(p, s) && ChainExcept(p, s, -1)
    ensures Advanced(p, s, s, 0) && Extends(s.spent, s.spent)
    ensures forall gap :: ChainExcept(p, s, gap)
  {
  }

  lemma MarginAt(p: Hierarchy, s: State, i: nat)
    requires Sizes(p, s) && i < p.levels
    ensures Margin(p, s, 1) ==> Number(s.generation[i]) + 1 < Base256(32)
  {
    hide Number, Base256;
  }

  lemma RenewLast(p: Hierarchy, s: State, s': State, level: nat)
    requires ParamsOk(p) && Sizes(p, s) && Sizes(p, s') && 1 <= level < p.levels && Renewing(p, s, s', level, p.levels)
    ensures RenewedFrom(p, s, s', level)
  {
    hide Shape, SpentBehind, Certified, Advanced, Extends;
  }

  lemma RefreshDone(p: Hierarchy, s: State, s1: State, s2: State, level: nat)
    requires ParamsOk(p) && Sizes(p, s) && 1 <= level < p.levels
    requires Refreshed(p, s, s1, level - 1) && RenewedFrom(p, s1, s2, level)
    ensures Refreshed(p, s, s2, level)
  {
    hide Shape, SpentBehind, ChainExcept, Number, Capacity;
    CapacityBounds(p.lmsTypes[level]);
  }

  lemma MarginLeft(p: Hierarchy, s: State, s1: State, level: nat)
    requires ParamsOk(p) && Sizes(p, s) && Sizes(p, s1) && 1 <= level && Advanced(p, s, s1, level - 1)
    ensures Margin(p, s, level) ==> Margin(p, s1, 1)
  {
    hide Number;
  }

  lemma DerivedShape(p: Hierarchy, s: State, i: nat)
    requires ParamsOk(p) && Sizes(p, s) && i < p.levels && LevelOk(p, s, i)
    ensures KeyShape(s.keys[i]) && s.keys[i].lmsType == p.lmsTypes[i] && s.keys[i].otsType == p.otsTypes[i]
    ensures Pow2(HeightOfKey(s.keys[i])) == Capacity(p.lmsTypes[i])
  {
  }

  /** hss_private_key_init demands one hash for the whole hierarchy. */
  predicate OneHash(lmsTypes: seq<nat>, otsTypes: seq<nat>)
    requires |lmsTypes| == |otsTypes|
  {
    && (forall i :: 0 <= i < |lmsTypes| ==> Compatible(lmsTypes[i], otsTypes[i]))
    && (forall i :: 0 <= i < |lmsTypes| ==> LmsParamOf(lmsTypes[i]).value.alg == LmsParamOf(lmsTypes[0]).value.alg)
  }

  lemma FreshLevel(p: Hierarchy, s: State, i: nat)
    requires ParamsOk(p) && Sizes(p, s) && i < p.levels && |s.generation[i]| == 32
    requires s.keys[i] == Derived(p, i, s.generation[i]) && s.pubs[i] == PublicOf(p.H, Derived(p, i, s.generation[i]))
    ensures LevelOk(p, s, i) && s.keys[i].q == 0
  {
  }

  // ---- the bytes of an HSS signature ----

  /** Certificates i, i + 1, .. each followed by the public key it certifies. */
  ghost function Links(p: Hierarchy, s: State, i: nat): Bytes
    requires Sizes(p, s) && i < p.levels
    decreases p.levels - i
  {
    if i + 1 == p.levels then [] else s.certSig[i] + SerializePublic(s.pubs[i + 1]) + Links(p, s, i + 1)
  }

  /** hss_signature_len from level i on: every certificate with a 56-byte key, and the final signature. */
  function TotalLen(p: Hierarchy, i: nat): nat
    requires |p.lmsTypes| == |p.otsTypes| == p.levels && i < p.levels
    decreases p.levels - i
  {
    (if i == 0 then 4 else 0) + SignatureLen(p.lmsTypes[i], p.otsTypes[i])
    + if i + 1 == p.levels then 0 else 56 + TotalLen(p, i + 1)
  }

  /** The loop of hss_verify with n certificates to go. */
  ghost predicate VerifyFrom(H: HashFn, current: PublicKey, n: nat, message: Bytes, b: Bytes)
    decreases n
  {
    if n == 0 then Accepts(H, current, message, b)
    else
      var certLen := SignatureLen(current.lmsType, current.otsType);
      && certLen != 0 && certLen + 56 <= |b|
      && Accepts(H, current, b[certLen..certLen + 56], b[..certLen])
      && ParsePublic(b[certLen..certLen + 56]).Some?
      && VerifyFrom(H, ParsePublic(b[certLen..certLen + 56]).value, n - 1, message, b[certLen + 56..])
  }

  /** hss_verify as a function of the bytes; the level count wraps in 32 bits. */
  ghost predicate HssAccepts(H: HashFn, levels: nat, root: PublicKey, message: Bytes, sig: Bytes) {
    && |sig| >= 4 && (LoadU32(sig) + 1) % 0x1_0000_0000 == levels && 1 <= levels <= MAX_LEVELS
    && VerifyFrom(H, root, levels - 1, message, sig[4..])
  }

  /** One turn of the loop: the certificate and the child key at offset off. */
  lemma VerifyStep(H: HashFn, current: PublicKey, n: nat, message: Bytes, sig: Bytes, off: nat)
    requires n > 0 && off <= |sig|
    ensures var certLen := SignatureLen(current.lmsType, current.otsType);
            VerifyFrom(H, current, n, message, sig[off..]) <==>
              && certLen != 0 && off + certLen + 56 <= |sig|
              && var child, cert := sig[off + certLen..off + certLen + 56], sig[off..off + certLen];
                 && Accepts(H, current, child, cert) && ParsePublic(child).Some?
                 && VerifyFrom(H, ParsePublic(child).value, n - 1, message, sig[off + certLen + 56..])
  {
    hide Accepts, ParsePublic, SignatureLen;
    var certLen := SignatureLen(current.lmsType, current.otsType);
    if off + certLen + 56 <= |sig| {
      assert sig[off..][certLen..certLen + 56] == sig[off + certLen..off + certLen + 56];
      assert sig[off..][..certLen] == sig[off..off + certLen];
      assert sig[off..][certLen + 56..] == sig[off + certLen + 56..];
    }
  }

  /** hss_verify */
  method Verify(H: HashFn, levels: nat, root: PublicKey, message: Bytes, sig: Bytes) returns (rc: Rc)
    ensures rc == Ok <==> HssAccepts(H, levels, root, message, sig)
  {
    hide Accepts, ParsePublic, LoadU32, VerifyFrom, SignatureLen;
    if levels == 0 || |sig| < 4 {
      return ErrInvalid;
    }
    var found := (LoadU32(sig) + 1) % 0x1_0000_0000;
    if found != levels || found == 0 || found > MAX_LEVELS {
      return ErrVerify;
    }
    var current := root;
    var off := 4;
    var i := 0;
    while i + 1 < found
      invariant 0 <= i < found && 4 <= off <= |sig|
      invariant VerifyFrom(H, root, found - 1, message, sig[4..]) == VerifyFrom(H, current, found - 1 - i, message, sig[off..])
    {
      VerifyStep(H, current, found - 1 - i, message, sig, off);
      var certLen := SignatureLen(current.lmsType, current.otsType);
      if certLen == 0 || off + certLen + 56 > |sig| {
        return ErrInvalid;
      }
      var child, cert := sig[off + certLen..off + certLen + 56], sig[off..off + certLen];
      var certRc := Lms.Verify(H, current, child, cert);
      if certRc != Ok {
        return ErrVerify;
      }
      var parsed := ParsePublic(child);
      if parsed.None? {
        return ErrVerify;
      }
      current := parsed.value;
      off := off + certLen + 56;
      i := i + 1;
    }
    LastStep(H, current, message, sig[off..]);
    rc := Lms.Verify(H, current, message, sig[off..]);
  }

  lemma LastStep(H: HashFn, current: PublicKey, message: Bytes, b: Bytes)
    ensures VerifyFrom(H, current, 0, message, b) == Accepts(H, current, message, b)
  {
  }

  /** Section 6 of RFC 8554: a sound chain and a good last signature make the verifier accept the bytes. */
  lemma {:induction false} ChainVerifies(p: Hierarchy, s: State, i: nat, message: Bytes, final: Bytes)
    requires Shape(p, s) && ChainExcept(p, s, -1) && i < p.levels
    requires Accepts(p.H, s.pubs[p.levels - 1], message, final)
    ensures VerifyFrom(p.H, s.pubs[i], p.levels - 1 - i, message, Links(p, s, i) + final)
    decreases p.levels - i
  {
    hide Accepts, ParsePublic, SerializePublic, SignatureLen, PublicOf, Derived, Capacity, Made;
    if i + 1 < p.levels {
      ChainVerifies(p, s, i + 1, message, final);
      assert Certified(p, s, i);
      PublicShape(p, s, i);
      PublicShape(p, s, i + 1);
      var child := SerializePublic(s.pubs[i + 1]);
      var b := Links(p, s, i) + final;
      var certLen := |s.certSig[i]|;
      assert b[..certLen] == s.certSig[i];
      assert b[certLen..certLen + 56] == child;
      assert b[certLen + 56..] == Links(p, s, i + 1) + final;
    } else {
      assert Links(p, s, i) + final == final;
    }
  }

  lemma PublicShape(p: Hierarchy, s: State, i: nat)
    requires Shape(p, s) && i < p.levels
    ensures s.pubs[i].lmsType == p.lmsTypes[i] && s.pubs[i].otsType == p.otsTypes[i]
    ensures |SerializePublic(s.pubs[i])| == 56 && ParsePublic(SerializePublic(s.pubs[i])) == Some(s.pubs[i])
    ensures SignatureLen(p.lmsTypes[i], p.otsTypes[i]) != 0
  {
    assert LevelOk(p, s, i);
    TypeBounds(p.lmsTypes[i], p.otsTypes[i]);
    PublicRoundTrip(s.pubs[i]);
    SignatureFits(p.lmsTypes[i], p.otsTypes[i]);
  }

  lemma RefreshedParts(p: Hierarchy, s: State, s1: State, last: nat)
    requires ParamsOk(p) && Sizes(p, s) && last < p.levels && Refreshed(p, s, s1, last)
    ensures Shape(p, s1) && Sizes(p, s1) && SpentBehind(p, s1) && ChainExcept(p, s1, -1)
    ensures s1.keys[last].q < Capacity(p.lmsTypes[last])
  {
  }

  lemma LastKey(p: Hierarchy, s: State, message: Bytes)
    requires Shape(p, s) && s.keys[p.levels - 1].q < Capacity(p.lmsTypes[p.levels - 1])
    ensures var k, last := s.keys[p.levels - 1], p.levels - 1;
            && KeyShape(k) && k.q < Pow2(HeightOfKey(k))
            && k.lmsType == p.lmsTypes[last] && k.otsType == p.otsTypes[last]
            && Accepts(p.H, s.pubs[last], message, Signature(p.H, k, message))
  {
    assert LevelOk(p, s, p.levels - 1);
    DerivedShape(p, s, p.levels - 1);
    LinkHolds(p, s, p.levels - 1, message);
  }

  /** The chain part leaves room for the final signature in a buffer of hss_signature_len bytes. */
  lemma ChainLen(p: Hierarchy, s: State)
    requires Shape(p, s) && ChainExcept(p, s, -1)
    ensures 4 + |Links(p, s, 0)| + SignatureLen(p.lmsTypes[p.levels - 1], p.otsTypes[p.levels - 1]) == TotalLen(p, 0)
  {
    ChainLenFrom(p, s, 0);
  }

  lemma {:induction false} ChainLenFrom(p: Hierarchy, s: State, i: nat)
    requires Shape(p, s) && ChainExcept(p, s, -1) && i < p.levels
    ensures (if i == 0 then 4 else 0) + |Links(p, s, i)| + SignatureLen(p.lmsTypes[p.levels - 1], p.otsTypes[p.levels - 1])
         == TotalLen(p, i)
    decreases p.levels - i
  {
    hide Accepts, ParsePublic, SerializePublic, SignatureLen, PublicOf, Derived, Capacity, Made;
    if i + 1 < p.levels {
      ChainLenFrom(p, s, i + 1);
      assert Certified(p, s, i);
      PublicShape(p, s, i + 1);
    }
  }

  /** The one-time keys behind the last released signature: one per certificate, and the one of the last level. */
  ghost function UsesOf(p: Hierarchy, s: State): (uses: seq<Use>)
    requires ParamsOk(p) && Sizes(p, s)
    ensures |uses| == p.levels
  {
    var last := p.levels - 1;
    s.certUse + [Use(last, s.generation[last], if s.keys[last].q > 0 then s.keys[last].q - 1 else 0)]
  }

  ghost predicate UsesFit(p: Hierarchy, uses: seq<Use>) {
    ParamsOk(p) && |uses| == p.levels && forall i :: 0 <= i < p.levels ==> UseOk(p, uses[i]) && uses[i].level == i
  }

  /** What the one-time key of level i signed: the child's public key, or on the last level the message. */
  ghost function Content(p: Hierarchy, s: State, message: Bytes, i: nat): Bytes
    requires Sizes(p, s) && i < p.levels
  {
    if i == p.levels - 1 then message else SerializePublic(s.pubs[i + 1])
  }

  /** From level i on, the signature each one-time key makes, and after it the key it certifies. */
  ghost function UsedLinks(p: Hierarchy, s: State, uses: seq<Use>, message: Bytes, i: nat): Bytes
    requires Sizes(p, s) && UsesFit(p, uses) && i < p.levels
    decreases p.levels - i
  {
    var content := Content(p, s, message, i);
    UseSignature(p, uses[i], content)
    + if i + 1 == p.levels then [] else content + UsedLinks(p, s, uses, message, i + 1)
  }

  /** Every one-time key behind the signature is spent on what it signed. */
  ghost predicate AllSpent(p: Hierarchy, s: State, message: Bytes)
    requires ParamsOk(p) && Sizes(p, s)
  {
    forall i :: 0 <= i < p.levels ==>
      UsesOf(p, s)[i] in s.spent && s.spent[UsesOf(p, s)[i]] == Content(p, s, message, i)
  }

  /** A completed hss_sign: the bytes are exactly the signatures of the named one-time keys; all of these are spent on
      what they signed, the one of the last level only now; the root, and everything spent before, stays. */
  ghost predicate Signed(p: Hierarchy, s: State, s': State, message: Bytes, sig: Bytes)
    requires ParamsOk(p) && Sizes(p, s)
  {
    && Invariant(p, s') && Sizes(p, s') && s'.pubs[0] == s.pubs[0]
    && Extends(s.spent, s'.spent) && Advanced(p, s, s', p.levels - 1)
    && UsesFit(p, UsesOf(p, s')) && AllSpent(p, s', message) && UsesOf(p, s')[p.levels - 1] !in s.spent
    && sig == StoreU32(p.levels - 1) + UsedLinks(p, s', UsesOf(p, s'), message, 0)
    && HssAccepts(p.H, p.levels, s.pubs[0], message, sig)
  }

  /** Signing with the last level of a refreshed copy completes hss_sign. */
  lemma SignDone(p: Hierarchy, s: State, s1: State, message: Bytes, final: Bytes)
    requires ParamsOk(p) && Sizes(p, s) && Refreshed(p, s, s1, p.levels - 1)
    requires Sizes(p, s1) && KeyShape(s1.keys[p.levels - 1]) && s1.keys[p.levels - 1].q < Pow2(HeightOfKey(s1.keys[p.levels - 1]))
    requires final == Signature(p.H, s1.keys[p.levels - 1], message)
    ensures var s2 := AfterUse(p, s1, p.levels - 1, message);
            Invariant(p, s2) && Signed(p, s, s2, message, StoreU32(p.levels - 1) + Links(p, s1, 0) + final)
  {
    hide Accepts, Signature, PublicOf, Number, Capacity, LevelOk, Behind, Certified, Links, HssAccepts, UsesFit, UsedLinks,
         AllSpent, UsesOf, StoreU32;
    var last := p.levels - 1;
    RefreshedParts(p, s, s1, last);
    UseKeeps(p, s1, last, message);
    var s2 := AfterUse(p, s1, last, message);
    ChainStays(p, s1, s2);
    UsesAfter(p, s1, message, final);
    BytesVerify(p, s1, message, final);
    assert StoreU32(last) + Links(p, s1, 0) + final == StoreU32(last) + (Links(p, s1, 0) + final);
  }

  /** The uses after signing with the last level, and the bytes they make. */
  lemma UsesAfter(p: Hierarchy, s: State, message: Bytes, final: Bytes)
    requires Shape(p, s) && ChainExcept(p, s, -1) && SpentBehind(p, s)
    requires s.keys[p.levels - 1].q < Capacity(p.lmsTypes[p.levels - 1])
    requires KeyShape(s.keys[p.levels - 1]) && s.keys[p.levels - 1].q < Pow2(HeightOfKey(s.keys[p.levels - 1]))
    requires final == Signature(p.H, s.keys[p.levels - 1], message)
    ensures var s2 := AfterUse(p, s, p.levels - 1, message);
            && Sizes(p, s2) && UsesFit(p, UsesOf(p, s2)) && AllSpent(p, s2, message)
            && UsesOf(p, s2)[p.levels - 1] == NextUse(p, s, p.levels - 1)
            && Links(p, s, 0) + final == UsedLinks(p, s2, UsesOf(p, s2), message, 0)
  {
    hide Signature, UseSignature, PublicOf, Capacity, LevelOk, Behind, Accepts, SerializePublic, UseOk, Derived;
    var last := p.levels - 1;
    var s2 := AfterUse(p, s, last, message);
    var uses := UsesOf(p, s2);
    LinkHolds(p, s, last, message);
    UseKeeps(p, s, last, message);
    forall i | 0 <= i < p.levels
      ensures UseOk(p, uses[i]) && uses[i].level == i
      ensures uses[i] in s2.spent && s2.spent[uses[i]] == Content(p, s2, message, i)
    {
      if i < last {
        assert Certified(p, s, i);
      }
    }
    LinksAreUsed(p, s, s2, message, final, 0);
  }

  lemma {:induction false} LinksAreUsed(p: Hierarchy, s: State, s2: State, message: Bytes, final: Bytes, i: nat)
    requires ParamsOk(p) && Sizes(p, s) && Sizes(p, s2) && ChainExcept(p, s, -1) && i < p.levels
    requires s2.pubs == s.pubs && s2.certUse == s.certUse && UsesFit(p, UsesOf(p, s2))
    requires final == UseSignature(p, UsesOf(p, s2)[p.levels - 1], message)
    ensures Links(p, s, i) + final == UsedLinks(p, s2, UsesOf(p, s2), message, i)
    decreases p.levels - i
  {
    hide UseSignature, SerializePublic, Accepts, UseOk, UsesFit;
    if i + 1 == p.levels {
      assert Links(p, s, i) + final == final + [];
    } else {
      LinksAreUsed(p, s, s2, message, final, i + 1);
      assert Certified(p, s, i);
      var child := SerializePublic(s.pubs[i + 1]);
      assert Links(p, s, i) + final == s.certSig[i] + (child + (Links(p, s, i + 1) + final));
    }
  }

  lemma BytesVerify(p: Hierarchy, s: State, message: Bytes, final: Bytes)
    requires Shape(p, s) && ChainExcept(p, s, -1) && s.keys[p.levels - 1].q < Capacity(p.lmsTypes[p.levels - 1])
    requires KeyShape(s.keys[p.levels - 1]) && s.keys[p.levels - 1].q < Pow2(HeightOfKey(s.keys[p.levels - 1]))
    requires final == Signature(p.H, s.keys[p.levels - 1], message)
    ensures HssAccepts(p.H, p.levels, s.pubs[0], message, StoreU32(p.levels - 1) + Links(p, s, 0) + final)
  {
    hide Shape, ChainExcept, Accepts, Signature, PublicOf, Capacity, LoadU32, StoreU32, Links, VerifyFrom;
    ShapeParts(p, s);
    var last := p.levels - 1;
    LastKey(p, s, message);
    ChainVerifies(p, s, 0, message, final);
    var sig := StoreU32(last) + Links(p, s, 0) + final;
    U32RoundTrip(last);
    assert sig[..4] == StoreU32(last);
    LoadFront(sig, StoreU32(last));
    assert sig[4..] == Links(p, s, 0) + final;
  }

  lemma ChainStays(p: Hierarchy, s: State, s': State)
    requires ParamsOk(p) && Sizes(p, s) && Sizes(p, s') && ChainExcept(p, s, -1)
    requires s'.pubs == s.pubs && s'.certSig == s.certSig && s'.certUse == s.certUse && s'.generation == s.generation
    requires Extends(s.spent, s'.spent)
    ensures ChainExcept(p, s', -1)
  {
    hide Made, Accepts, SerializePublic, Extends;
    forall i | 0 <= i < p.levels - 1
      ensures Certified(p, s', i)
    {
      assert Certified(p, s, i);
      MadeStays(p, s, s', i);
    }
  }

  // ---- the private key ----

  class HssPrivateKey {
    const p: Hierarchy
    var generation: seq<Bytes>
    var keys: seq<PrivateKey>
    var pubs: seq<PublicKey>
    var certSig: seq<Bytes>
    ghost var spent: map<Use, Bytes>
    ghost var certUse: seq<Use>

    ghost function Snapshot(): State
      reads this
    {
      State(generation, keys, pubs, certSig, spent, certUse)
    }

    ghost predicate Valid()
      reads this
    {
      Invariant(p, Snapshot())
    }

    /** The copy hss_sign works on. */
    constructor Copy(from: HssPrivateKey)
      ensures p == from.p && Snapshot() == from.Snapshot()
    {
      p := from.p;
      generation, keys, pubs, certSig := from.generation, from.keys, from.pubs, from.certSig;
      spent, certUse := from.spent, from.certUse;
    }

    /** build_level under the given generation. */
    method BuildLevel(i: nat, g: Bytes)
      requires ParamsOk(p) && Sizes(p, Snapshot()) && i < p.levels
      modifies this
      ensures Snapshot() == AfterBuild(p, old(Snapshot()), i, g)
    {
      hide PublicOf, Derived, Compatible;
      var k := Derived(p, i, g);
      generation := generation[i := g];
      keys := keys[i := k];
      pubs := pubs[i := PublicOf(p.H, k)];
    }

    /** sign_child_certificate */
    method SignChildCertificate(parent: nat) returns (ok: bool)
      requires Shape(p, Snapshot()) && parent + 1 < p.levels
      modifies this
      ensures ok <==> old(keys[parent].q) < Capacity(p.lmsTypes[parent])
      ensures ok ==> Snapshot() == AfterCertificate(p, old(Snapshot()), parent)
      ensures !ok ==> Snapshot() == old(Snapshot())
    {
      hide Signature, PublicOf, Derived, SerializePublic, LevelOk, Capacity, Compatible, SignatureLen, SignOutcome,
           OneTimePart, LmsParamOf, OtsParamOf, Extends, Behind, Certified;
      ghost var s := Snapshot();
      assert LevelOk(p, s, parent);
      SignatureFits(p.lmsTypes[parent], p.otsTypes[parent]);
      DerivedShape(p, s, parent);
      SignOutcomeOfKey(keys[parent], MAX_SIGNATURE_LEN);
      var message := SerializePublic(pubs[parent + 1]);
      var rc, sig, k := SignWithoutCache(p.H, keys[parent], message, MAX_SIGNATURE_LEN);
      if rc != Ok {
        return false;
      }
      spent := spent[NextUse(p, s, parent) := message];
      certUse := certUse[parent := NextUse(p, s, parent)];
      keys := keys[parent := k];
      certSig := certSig[parent := sig];
      return true;
    }

    /** One renewal: increment_generation, build_level, sign_child_certificate. */
    method Renew(i: nat) returns (ok: bool)
      requires Shape(p, Snapshot()) && SpentBehind(p, Snapshot()) && 1 <= i < p.levels
      requires ChainExcept(p, Snapshot(), i - 1)
      modifies this
      ensures ok <==> Number(old(generation[i])) + 1 < Base256(32) && old(keys[i - 1].q) < Capacity(p.lmsTypes[i - 1])
      ensures ok ==> Renewed(p, old(Snapshot()), Snapshot(), i)
    {
      hide ChainExcept, SpentBehind, Certified, Derived, PublicOf, Number, Capacity, Signature, SerializePublic, NextUse, Extends,
           Compatible, Shape, Renewed, AfterCertificate, AfterBuild, Base256, Behind, LevelOk;
      ghost var s := Snapshot();
      ShapeLevel(p, s, i);
      var g;
      ok, g := IncrementGeneration(generation[i]);
      if !ok {
        return;
      }
      BuildLevel(i, g);
      BuildKeeps(p, s, i, g);
      BuildChanges(p, s, i, g);
      ghost var s1 := Snapshot();
      ok := SignChildCertificate(i - 1);
      if ok {
        CertificateKeeps(p, s1, i - 1);
        CertificateChanges(p, s1, i - 1);
        ShapeParts(p, Snapshot());
        RenewLinks(p, s, s1, Snapshot(), i);
        RenewDone(p, s, s1, Snapshot(), i);
      }
    }

    /** refresh_level_if_exhausted: make level usable, renewing exhausted ancestors first and every level below after. */
    method Refresh(level: nat) returns (ok: bool)
      requires Valid() && level < p.levels
      modifies this
      ensures ok ==> Refreshed(p, old(Snapshot()), Snapshot(), level)
      ensures Margin(p, old(Snapshot()), level) ==> (ok <==> SomeLeft(p, old(Snapshot()), level))
      decreases level
    {
      hide Shape, ChainExcept, SpentBehind, Number, Capacity, Renewed, Extends, Renewing, RenewedFrom, Base256,
           Certified, Behind;
      ghost var s := Snapshot();
      ValidParts(p, s);
      if keys[level].q < Capacity(p.lmsTypes[level]) {
        return true;
      }
      if level == 0 {
        return false;
      }
      ok := Refresh(level - 1);
      ghost var s1 := Snapshot();
      if !ok {
        return;
      }
      ok := RenewFrom(level);
      if ok {
        RefreshDone(p, s, s1, Snapshot(), level);
      } else {
        MarginLeft(p, s, s1, level);
      }
    }

    /** The second half of the refresh: the level itself, then the loop over the levels below. */
    method RenewFrom(level: nat) returns (ok: bool)
      requires Valid() && 1 <= level < p.levels && keys[level - 1].q < Capacity(p.lmsTypes[level - 1])
      modifies this
      ensures ok ==> RenewedFrom(p, old(Snapshot()), Snapshot(), level)
      ensures Margin(p, old(Snapshot()), 1) ==> ok
    {
      hide Shape, ChainExcept, SpentBehind, Number, Capacity, Extends, Renewed, Renewing, RenewedFrom, Advanced, Margin, Invariant,
           Compatible, Base256, Certified, Behind;
      ghost var s := Snapshot();
      ValidParts(p, s);
      MarginAt(p, s, level);
      ok := Renew(level);
      if !ok {
        return;
      }
      RenewFirst(p, s, Snapshot(), level);
      var j := level + 1;
      while j < p.levels
        invariant level < j <= p.levels
        invariant Sizes(p, Snapshot()) && Renewing(p, s, Snapshot(), level, j)
      {
        RenewingParts(p, s, Snapshot(), level, j);
        MarginAt(p, s, j);
        ghost var before := Snapshot();
        ok := Renew(j);
        if !ok {
          return;
        }
        RenewNext(p, s, before, Snapshot(), level, j);
        j := j + 1;
      }
      RenewLast(p, s, Snapshot(), level);
    }

    // ---- init ----

    /** A zeroed structure for the given parameters. */
    constructor Blank(p: Hierarchy)
      requires 1 <= p.levels
      ensures this.p == p && Sizes(p, Snapshot()) && spent == map[]
      ensures forall i :: 0 <= i < p.levels ==> generation[i] == Fill(32, 0)
    {
      this.p := p;
      generation := seq(p.levels, _ => Fill(32, 0));
      keys := seq(p.levels, _ => PrivateKey(0, 0, [], [], 0));
      pubs := seq(p.levels, _ => PublicKey(0, 0, [], ZeroDigest()));
      certSig := seq(p.levels - 1, _ => []);
      spent, certUse := map[], seq(p.levels - 1, _ => Use(0, [], 0));
    }

    /** hss_private_key_init */
    static method Init(H: HashFn, levels: nat, lmsTypes: seq<nat>, otsTypes: seq<nat>, master: Bytes)
      returns (rc: Rc, key: HssPrivateKey?)
      requires |lmsTypes| == |otsTypes| == levels
      ensures rc == if 1 <= levels <= MAX_LEVELS && OneHash(lmsTypes, otsTypes) then Ok else ErrInvalid
      ensures rc == Ok ==> key != null && fresh(key) && key.Valid() && key.p == Hierarchy(H, levels, master, lmsTypes, otsTypes)
      ensures rc == Ok ==> forall i :: 0 <= i < levels ==> Number(key.generation[i]) == 0
    {
      key := null;
      if levels == 0 || levels > MAX_LEVELS {
        return ErrInvalid, key;
      }
      var same := CheckTypes(lmsTypes, otsTypes);
      if !same {
        return ErrInvalid, key;
      }
      var p := Hierarchy(H, levels, master, lmsTypes, otsTypes);
      key := new HssPrivateKey.Blank(p);
      key.BuildAll();
      key.CertifyAll();
      rc := Ok;
      NumberOfZeros(32);
    }

    /** The mixed-hash check and the check of each level's own pair. */
    static method CheckTypes(lmsTypes: seq<nat>, otsTypes: seq<nat>) returns (ok: bool)
      requires |lmsTypes| == |otsTypes| >= 1
      ensures ok <==> OneHash(lmsTypes, otsTypes)
    {
      var i := 1;
      while i < |lmsTypes|
        invariant 1 <= i <= |lmsTypes|
        invariant i > 1 ==> Compatible(lmsTypes[0], otsTypes[0])
        invariant forall k :: 1 <= k < i ==>
                    Compatible(lmsTypes[k], otsTypes[k]) && LmsParamOf(lmsTypes[k]).value.alg == LmsParamOf(lmsTypes[0]).value.alg
      {
        var p0, pi := LmsParamOf(lmsTypes[0]), LmsParamOf(lmsTypes[i]);
        var o0, oi := OtsParamOf(otsTypes[0]), OtsParamOf(otsTypes[i]);
        if p0.None? || pi.None? || o0.None? || oi.None? {
          return false;
        }
        if p0.value.alg != pi.value.alg || o0.value.alg != oi.value.alg || p0.value.alg != o0.value.alg {
          return false;
        }
        i := i + 1;
      }
      ok := Compatible(lmsTypes[0], otsTypes[0]);
    }

    method BuildAll()
      requires ParamsOk(p) && Sizes(p, Snapshot()) && spent == map[]
      requires forall i :: 0 <= i < p.levels ==> generation[i] == Fill(32, 0)
      modifies this
      ensures Shape(p, Snapshot()) && spent == map[] && generation == old(generation)
      ensures forall i :: 0 <= i < p.levels ==> keys[i].q == 0
    {
      hide PublicOf, Derived, Compatible;
      var i := 0;
      while i < p.levels
        invariant 0 <= i <= p.levels
        invariant Sizes(p, Snapshot()) && spent == map[] && generation == old(generation)
        invariant forall k :: 0 <= k < i ==> LevelOk(p, Snapshot(), k) && keys[k].q == 0
      {
        BuildLevel(i, generation[i]);
        FreshLevel(p, Snapshot(), i);
        i := i + 1;
      }
    }

    method CertifyAll()
      requires Shape(p, Snapshot()) && spent == map[]
      requires forall i :: 0 <= i < p.levels ==> keys[i].q == 0
      modifies this
      ensures Valid() && generation == old(generation)
    {
      hide Shape, Certified, Behind, Capacity, Number, Extends, AfterCertificate, NextUse;
      ShapeParts(p, Snapshot());
      var i := 0;
      while i + 1 < p.levels
        invariant 0 <= i < p.levels
        invariant Sizes(p, Snapshot()) && Shape(p, Snapshot()) && SpentBehind(p, Snapshot()) && generation == old(generation)
        invariant forall k :: 0 <= k < i ==> Certified(p, Snapshot(), k)
        invariant forall k :: i <= k < p.levels ==> keys[k].q == 0
      {
        CapacityBounds(p.lmsTypes[i]);
        ghost var s := Snapshot();
        var ok := SignChildCertificate(i);
        CertificateKeeps(p, s, i);
        CertificateChanges(p, s, i);
        ShapeParts(p, Snapshot());
        i := i + 1;
      }
    }

    // ---- signing ----

    /** hss_signature_len: the certificates as they are now, and the final signature. */
    method SignatureLength() returns (total: nat)
      requires Valid()
      ensures total == TotalLen(p, 0)
    {
      hide Accepts, PublicOf, Derived, Capacity, SerializePublic, Behind, SignatureLen, Made;
      ghost var s := Snapshot();
      ValidParts(p, s);
      total := 4;
      var i := 0;
      while i + 1 < p.levels
        invariant 0 <= i < p.levels
        invariant total + TotalLen(p, i) - (if i == 0 then 4 else 0) == TotalLen(p, 0)
      {
        assert Certified(p, s, i);
        SignatureFits(p.lmsTypes[i], p.otsTypes[i]);
        if |certSig[i]| == 0 {
          assert false;
        }
        total := total + |certSig[i]| + 56;
        i := i + 1;
      }
      total := total + SignatureLen(p.lmsTypes[p.levels - 1], p.otsTypes[p.levels - 1]);
    }

    /** hss_sign: refresh a copy, write certificates and keys, sign with the last level, then commit the copy.
        `memory`: whether the copy can be allocated. */
    method Sign(message: Bytes, capacity: nat, memory: bool) returns (rc: Rc, sig: Bytes)
      requires Valid()
      modifies this
      ensures rc != Ok ==> Snapshot() == old(Snapshot())
      ensures rc == Ok ==> Valid() && Signed(p, old(Snapshot()), Snapshot(), message, sig)
      ensures rc == ErrBufferTooSmall <==> capacity < TotalLen(p, 0)
      ensures rc == ErrInvalid <==> capacity >= TotalLen(p, 0) && !memory
      ensures |sig| == if rc == Ok then TotalLen(p, 0) else 0
      ensures capacity >= TotalLen(p, 0) && memory && Margin(p, old(Snapshot()), p.levels - 1) ==>
                (rc == Ok <==> SomeLeft(p, old(Snapshot()), p.levels - 1))
    {
      hide Invariant, TotalLen, Refreshed, Signed, Margin, SomeLeft, Links, StoreU32;
      sig := [];
      ghost var s := Snapshot();
      ValidParts(p, s);
      var needed := SignatureLength();
      if capacity < needed {
        return ErrBufferTooSmall, sig;
      }
      if !memory {
        return ErrInvalid, sig;
      }
      var next := new HssPrivateKey.Copy(this);
      var ok := next.Refresh(p.levels - 1);
      if !ok {
        return ErrExhausted, sig;
      }
      sig := next.WriteAndSign(s, message, capacity);
      generation, keys, pubs, certSig := next.generation, next.keys, next.pubs, next.certSig;
      spent, certUse := next.spent, next.certUse;
      rc := Ok;
    }

    /** The second half of hss_sign on the refreshed copy: with room for the whole signature nothing can fail. */
    method WriteAndSign(ghost s: State, message: Bytes, capacity: nat) returns (sig: Bytes)
      requires ParamsOk(p) && Sizes(p, s) && Refreshed(p, s, Snapshot(), p.levels - 1) && capacity >= TotalLen(p, 0)
      modifies this
      ensures Signed(p, s, Snapshot(), message, sig) && Invariant(p, Snapshot())
      ensures |sig| == TotalLen(p, 0)
    {
      hide Shape, ChainExcept, SpentBehind, Capacity, Accepts, PublicOf, Signature, Refreshed, NextUse, Links, TotalLen,
           Compatible, SignatureLen, StoreU32, Signed, Invariant, SignOutcome, OneTimePart;
      ghost var s1 := Snapshot();
      var last := p.levels - 1;
      RefreshedParts(p, s, s1, last);
      sig := WriteChain();
      ChainLen(p, s1);
      LastKey(p, s1, message);
      SignOutcomeOfKey(keys[last], capacity - |sig|);
      var rc, final, k := SignWithoutCache(p.H, keys[last], message, capacity - |sig|);
      spent := spent[NextUse(p, s1, last) := message];
      keys := keys[last := k];
      SignDone(p, s, s1, message, final);
      sig := sig + final;
    }

    /** u32(levels - 1), then every certificate with the public key it certifies. */
    method WriteChain() returns (sig: Bytes)
      requires Sizes(p, Snapshot()) && 1 <= p.levels
      ensures sig == StoreU32(p.levels - 1) + Links(p, Snapshot(), 0)
    {
      sig := StoreU32(p.levels - 1);
      ghost var head := sig;
      var i := 0;
      while i + 1 < p.levels
        invariant 0 <= i < p.levels
        invariant sig + Links(p, Snapshot(), i) == head + Links(p, Snapshot(), 0)
      {
        sig := sig + certSig[i] + SerializePublic(pubs[i + 1]);
        i := i + 1;
      }
    }
  }

  // ---- whole runs ----

  /** One call of hss_sign: the message and the bytes it gave back, or nothing when it failed. */
  datatype Call = Released(message: Bytes, sig: Bytes) | Failed

  ghost predicate CallStep(p: Hierarchy, s: State, s': State, c: Call)
    requires ParamsOk(p) && Sizes(p, s)
  {
    match c
    case Failed => s' == s
    case Released(message, sig) => Signed(p, s, s', message, sig)
  }

  /** states[i + 1] is what call i leaves of states[i]. */
  ghost predicate Run(p: Hierarchy, states: seq<State>, calls: seq<Call>) {
    && ParamsOk(p) && |states| == |calls| + 1
    && (forall i :: 0 <= i < |states| ==> Sizes(p, states[i]))
    && (forall i, next :: 0 <= i < |calls| && next == i + 1 ==> CallStep(p, states[i], states[next], calls[i]))
  }

  ghost predicate NotBehind(p: Hierarchy, s: State, s': State)
    requires Sizes(p, s) && Sizes(p, s')
  {
    forall k :: 0 <= k < p.levels ==> Number(s.generation[k]) <= Number(s'.generation[k])
  }

  /** Over a run the root never changes, generations never go back and no signature is made over. */
  lemma {:induction false} RunExtends(p: Hierarchy, states: seq<State>, calls: seq<Call>, i: nat, j: nat)
    requires Run(p, states, calls) && i <= j < |states|
    ensures Extends(states[i].spent, states[j].spent) && states[j].pubs[0] == states[i].pubs[0]
    ensures NotBehind(p, states[i], states[j])
  {
    hide HssAccepts, Number, Invariant, UsesFit, AllSpent, UsedLinks, UsesOf;
    if i < j {
      RunExtends(p, states, calls, i, j - 1);
      assert CallStep(p, states[j - 1], states[j], calls[j - 1]);
    }
  }

  /** One-time use over any run of hss_sign calls. When one one-time key (level, generation, index) stands behind two
      released signatures, on whatever levels, it signed the same message or child key in both; and the one-time keys
      of the last level, which sign the messages, never stand behind two of them. */
  lemma NoUseTwice(p: Hierarchy, states: seq<State>, calls: seq<Call>, i: nat, j: nat, a: nat, b: nat)
    requires Run(p, states, calls) && i <= j < |calls| && calls[i].Released? && calls[j].Released?
    requires a < p.levels && b < p.levels
    requires UsesOf(p, states[i + 1])[a] == UsesOf(p, states[j + 1])[b]
    ensures a == b
    ensures Content(p, states[i + 1], calls[i].message, a) == Content(p, states[j + 1], calls[j].message, b)
    ensures a == p.levels - 1 ==> i == j
  {
    hide HssAccepts, Number, Advanced, UsesOf, UsedLinks, Content, UseOk, Invariant;
    assert CallStep(p, states[i], states[i + 1], calls[i]) && CallStep(p, states[j], states[j + 1], calls[j]);
    RunExtends(p, states, calls, i + 1, j + 1);
    if i < j {
      RunExtends(p, states, calls, i + 1, j);
    }
  }

  /** What a call of a run released: the signatures of its one-time keys over their contents, in order, which verify
      under the first public key. */
  lemma ReleasedBytes(p: Hierarchy, states: seq<State>, calls: seq<Call>, j: nat)
    requires Run(p, states, calls) && j < |calls| && calls[j].Released?
    ensures UsesFit(p, UsesOf(p, states[j + 1]))
    ensures calls[j].sig == StoreU32(p.levels - 1) + UsedLinks(p, states[j + 1], UsesOf(p, states[j + 1]), calls[j].message, 0)
    ensures HssAccepts(p.H, p.levels, states[0].pubs[0], calls[j].message, calls[j].sig)
  {
    hide HssAccepts, Number, Advanced, UsesOf, UsedLinks, Invariant, UsesFit, AllSpent;
    RunExtends(p, states, calls, 0, j);
    assert CallStep(p, states[j], states[j + 1], calls[j]);
  }
}
