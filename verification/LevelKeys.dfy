/** The names of one-time keys in the hierarchy stand for different keys: level, generation and index all go into
    what is hashed. */
module LevelKeys {
  import opened Words
  import opened Params
  import opened Lmots
  import opened Lms
  import opened HashCalls
  import opened Hss

  /** What a level's seed (tag 0x53) or identifier (tag 0x49) is the hash of. */
  ghost function MaterialInput(p: Hierarchy, level: nat, generation: Bytes, tag: byte): Bytes {
    p.master + StoreU32(level) + generation + [tag]
  }

  ghost predicate Usable(p: Hierarchy) {
    ParamsOk(p) && OneHash(p.lmsTypes, p.otsTypes)
  }

  /** The hash of all levels. */
  ghost function HashAlgOf(p: Hierarchy): HashAlg
    requires Usable(p)
  {
    LmsParamOf(p.lmsTypes[0]).value.alg
  }

  lemma DerivedIsHash(p: Hierarchy, level: nat, generation: Bytes)
    requires Usable(p) && level < p.levels
    ensures AlgOf(Derived(p, level, generation)) == HashAlgOf(p)
    ensures Derived(p, level, generation).seed == p.H(HashAlgOf(p), MaterialInput(p, level, generation, 0x53))
    ensures Derived(p, level, generation).I == p.H(HashAlgOf(p), MaterialInput(p, level, generation, 0x49))[..16]
  {
    hide StoreU32;
  }

  lemma MaterialInjective(p: Hierarchy, i: nat, g: Bytes, s: byte, j: nat, g': Bytes, t: byte)
    requires i < 0x1_0000_0000 && j < 0x1_0000_0000 && |g| == |g'| == 32
    requires MaterialInput(p, i, g, s) == MaterialInput(p, j, g', t)
    ensures i == j && g == g' && s == t
  {
    hide StoreU32, LoadU32;
    MaterialFields(p, i, g, s);
    MaterialFields(p, j, g', t);
  }

  lemma MaterialFields(p: Hierarchy, i: nat, g: Bytes, t: byte)
    requires i < 0x1_0000_0000 && |g| == 32
    ensures var s, n := MaterialInput(p, i, g, t), |p.master|;
            |s| == n + 37 && LoadU32(s[n..]) == i && s[n + 4..n + 36] == g && s[n + 36] == t
  {
    hide StoreU32, LoadU32;
    var s, n := MaterialInput(p, i, g, t), |p.master|;
    U32RoundTrip(i);
    assert s[n..][..4] == StoreU32(i);
    LoadFront(s[n..], StoreU32(i));
  }

  /** Two levels, or two generations of one, with the same seed are a collision on their material. */
  lemma SeedsApart(p: Hierarchy, i: nat, g: Bytes, j: nat, g': Bytes)
    requires Usable(p) && i < p.levels && j < p.levels && |g| == |g'| == 32 && (i, g) != (j, g')
    requires Derived(p, i, g).seed == Derived(p, j, g').seed
    ensures MaterialInput(p, i, g, 0x53) != MaterialInput(p, j, g', 0x53)
    ensures p.H(HashAlgOf(p), MaterialInput(p, i, g, 0x53)) == p.H(HashAlgOf(p), MaterialInput(p, j, g', 0x53))
  {
    hide Derived, MaterialInput;
    DerivedIsHash(p, i, g);
    DerivedIsHash(p, j, g');
    if MaterialInput(p, i, g, 0x53) == MaterialInput(p, j, g', 0x53) {
      MaterialInjective(p, i, g, 0x53, j, g', 0x53);
    }
  }

  /** The start of chain c of the one-time key with this name. */
  ghost function SecretOf(p: Hierarchy, u: Use, c: nat): Digest
    requires UseOk(p, u)
  {
    PrivateValue(p.H, Derived(p, u.level, u.generation), u.q, c)
  }

  /** What that value is the hash of. */
  ghost function SecretCall(p: Hierarchy, u: Use, c: nat): HashCalls.Call
    requires UseOk(p, u)
  {
    var k := Derived(p, u.level, u.generation);
    PrivateCall(k.I, u.q, c, k.seed)
  }

  lemma SecretFits(p: Hierarchy, u: Use, c: nat)
    requires Usable(p) && UseOk(p, u) && c < 0x8000
    ensures Fits(SecretCall(p, u, c)) && SecretOf(p, u, c) == p.H(HashAlgOf(p), Input(SecretCall(p, u, c)))
  {
    hide Derived, StoreU32, StoreU16;
    DerivedIsHash(p, u.level, u.generation);
    NumberFits(p, u);
    var k := Derived(p, u.level, u.generation);
    ResultIsHash(p.H, HashAlgOf(p), PrivateCall(k.I, u.q, c, k.seed));
  }

  lemma NumberFits(p: Hierarchy, u: Use)
    requires UseOk(p, u)
    ensures u.q < 0x1_0000_0000
  {
    LargePowers();
    Pow2Monotone(LmsParamOf(p.lmsTypes[u.level]).value.height, 25);
  }

  /** The secret of chain c of u and that of chain d of v collide, or the seeds of their levels do. */
  ghost predicate SecretsCollide(p: Hierarchy, u: Use, c: nat, v: Use, d: nat)
    requires Usable(p) && UseOk(p, u) && UseOk(p, v) && Fits(SecretCall(p, u, c)) && Fits(SecretCall(p, v, d))
  {
    || (var x, y := Input(SecretCall(p, u, c)), Input(SecretCall(p, v, d));
        x != y && p.H(HashAlgOf(p), x) == p.H(HashAlgOf(p), y))
    || (var x, y := MaterialInput(p, u.level, u.generation, 0x53), MaterialInput(p, v.level, v.generation, 0x53);
        x != y && p.H(HashAlgOf(p), x) == p.H(HashAlgOf(p), y))
  }

  /** Two names with one secret value: a collision on what is hashed for them. */
  lemma NamesApart(p: Hierarchy, u: Use, c: nat, v: Use, d: nat)
    requires Usable(p) && UseOk(p, u) && UseOk(p, v) && c < 0x8000 && d < 0x8000 && (u, c) != (v, d)
    requires SecretOf(p, u, c) == SecretOf(p, v, d)
    ensures Fits(SecretCall(p, u, c)) && Fits(SecretCall(p, v, d)) && SecretsCollide(p, u, c, v, d)
  {
    hide Derived, MaterialInput, Input, Fits;
    SecretFits(p, u, c);
    SecretFits(p, v, d);
    if Input(SecretCall(p, u, c)) == Input(SecretCall(p, v, d)) {
      InputInjective(SecretCall(p, u, c), SecretCall(p, v, d));
      SeedsApart(p, u.level, u.generation, v.level, v.generation);
    }
  }

  /** One-time use over runs, by the secrets themselves: when chain c of a one-time key behind one release starts with
      the value that chain d of a key behind another release starts with, it is the same key and chain, used on one
      level for one content (and by one release when it signed the message), or the hash collides on what was hashed. */
  lemma NoSecretTwice(p: Hierarchy, states: seq<State>, calls: seq<Hss.Call>, i: nat, j: nat, a: nat, c: nat, b: nat, d: nat)
    requires Usable(p) && Run(p, states, calls) && i <= j < |calls| && calls[i].Released? && calls[j].Released?
    requires a < p.levels && b < p.levels && c < 0x8000 && d < 0x8000
    ensures UsesFit(p, UsesOf(p, states[i + 1])) && UsesFit(p, UsesOf(p, states[j + 1]))
    ensures var u, v := UsesOf(p, states[i + 1])[a], UsesOf(p, states[j + 1])[b];
            SecretOf(p, u, c) == SecretOf(p, v, d) ==>
              || (Fits(SecretCall(p, u, c)) && Fits(SecretCall(p, v, d)) && SecretsCollide(p, u, c, v, d))
              || (a == b && c == d && (a == p.levels - 1 ==> i == j)
                  && Content(p, states[i + 1], calls[i].message, a) == Content(p, states[j + 1], calls[j].message, b))
  {
    hide SecretsCollide, SecretOf, UsesOf, Content, Fits, UseOk;
    var u, v := UsesOf(p, states[i + 1])[a], UsesOf(p, states[j + 1])[b];
    ReleasedBytes(p, states, calls, i);
    ReleasedBytes(p, states, calls, j);
    if (u, c) == (v, d) {
      NoUseTwice(p, states, calls, i, j, a, b);
    } else if SecretOf(p, u, c) == SecretOf(p, v, d) {
      NamesApart(p, u, c, v, d);
    }
  }
}
