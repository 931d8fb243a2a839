/**
 * The CPU both machines agree to show the guest: vmctx_cpu_model_trim(), _intersect(), _valid()
 * and _subset() in vmctx_cpu_model.h. A register is the set of its one bits, which is exact
 * because the code only masks and compares: & is intersection, & ~ is difference.
 */
module CpuModel {
  type Word = set<nat>

  datatype Model = Model(version: nat, reserved: nat, leaf1Ecx: Word, leaf1Edx: Word, leaf7Ebx: Word, leaf7Ecx: Word,
                         leaf7Edx: Word, ext1Ecx: Word, ext1Edx: Word, reserved2: nat, xcr0: Word)

  const VERSION: nat := 1
  const LEAF1_ECX: Word := {0, 1, 9, 12, 13, 19, 20, 22, 23, 25, 26, 27, 28, 29, 30}
  const LEAF1_EDX: Word := {0, 4, 8, 15, 23, 24, 25, 26}
  const LEAF7_EBX: Word := {3, 5, 8, 9, 18, 19, 29}
  const EXT1_ECX: Word := {0, 5}
  const EXT1_EDX: Word := {11, 20, 29}
  const AVX_DEP: Word := {12, 28, 29}
  const XSAVE: Word := {26, 27}
  const X87_SSE: Word := {0, 1}
  const X87_SSE_YMM: Word := {0, 1, 2}

  /** Masks every field to the portable features. */
  function Masked(m: Model): Model {
    Model(VERSION, 0, m.leaf1Ecx * LEAF1_ECX, m.leaf1Edx * LEAF1_EDX, m.leaf7Ebx * LEAF7_EBX, {}, {},
          m.ext1Ecx * EXT1_ECX, m.ext1Edx * EXT1_EDX, 0, m.xcr0 * X87_SSE_YMM)
  }

  /** XSAVE and OSXSAVE come together or not at all; without them there is no YMM state. */
  function WithXsave(m: Model): Model {
    if m.leaf1Ecx * XSAVE != XSAVE then m.(leaf1Ecx := m.leaf1Ecx - XSAVE, xcr0 := m.xcr0 * X87_SSE) else m
  }

  /** YMM state and the features that need it come together or not at all. */
  function WithAvx(m: Model): Model {
    if m.xcr0 * X87_SSE_YMM != X87_SSE_YMM || 28 !in m.leaf1Ecx then
      m.(xcr0 := m.xcr0 * X87_SSE, leaf1Ecx := m.leaf1Ecx - AVX_DEP, leaf7Ebx := m.leaf7Ebx - {5})
    else m
  }

  /** vmctx_cpu_model_trim(). */
  function Trim(m: Model): Model {
    WithAvx(WithXsave(Masked(m)))
  }

  /** The field by field conjunction, before trimming. */
  function Both(a: Model, b: Model): Model {
    a.(leaf1Ecx := a.leaf1Ecx * b.leaf1Ecx, leaf1Edx := a.leaf1Edx * b.leaf1Edx,
       leaf7Ebx := a.leaf7Ebx * b.leaf7Ebx, leaf7Ecx := a.leaf7Ecx * b.leaf7Ecx,
       leaf7Edx := a.leaf7Edx * b.leaf7Edx, ext1Ecx := a.ext1Ecx * b.ext1Ecx,
       ext1Edx := a.ext1Edx * b.ext1Edx, xcr0 := a.xcr0 * b.xcr0)
  }

  /** vmctx_cpu_model_intersect(). */
  function Intersect(a: Model, b: Model): Model {
    Trim(Both(a, b))
  }

  /** vmctx_cpu_model_valid(). */
  predicate Valid(m: Model) {
    var c := Trim(m);
    && m.version == c.version && m.reserved == 0 && m.reserved2 == 0
    && m.leaf1Ecx == c.leaf1Ecx && m.leaf1Edx == c.leaf1Edx
    && m.leaf7Ebx == c.leaf7Ebx && m.leaf7Ecx == {} && m.leaf7Edx == {}
    && m.ext1Ecx == c.ext1Ecx && m.ext1Edx == c.ext1Edx
    && m.xcr0 == c.xcr0 && m.xcr0 * X87_SSE == X87_SSE
    && m.leaf1Edx * LEAF1_EDX == LEAF1_EDX
    && m.ext1Edx * EXT1_EDX == EXT1_EDX
  }

  /** The comparison of vmctx_cpu_model_subset(): nothing in m is missing from caps. */
  predicate Within(m: Model, caps: Model) {
    && m.leaf1Ecx <= caps.leaf1Ecx && m.leaf1Edx <= caps.leaf1Edx && m.leaf7Ebx <= caps.leaf7Ebx
    && m.ext1Ecx <= caps.ext1Ecx && m.ext1Edx <= caps.ext1Edx && m.xcr0 <= caps.xcr0
  }

  /** vmctx_cpu_model_subset(). */
  predicate Subset(m: Model, caps: Model) {
    Valid(m) && Within(m, caps)
  }

  /** What a guest may rely on, said without trimming: portable, complete baseline, dependencies whole. */
  predicate Coherent(m: Model) {
    && m.version == VERSION && m.reserved == 0 && m.reserved2 == 0 && m.leaf7Ecx == {} && m.leaf7Edx == {}
    && m.leaf1Ecx <= LEAF1_ECX && m.leaf7Ebx <= LEAF7_EBX && m.ext1Ecx <= EXT1_ECX
    && m.leaf1Edx == LEAF1_EDX && m.ext1Edx == EXT1_EDX
    && (m.xcr0 == X87_SSE || m.xcr0 == X87_SSE_YMM)
    && (26 in m.leaf1Ecx <==> 27 in m.leaf1Ecx)
    && (2 in m.xcr0 <==> 28 in m.leaf1Ecx)
    && (12 in m.leaf1Ecx || 28 in m.leaf1Ecx || 29 in m.leaf1Ecx || 5 in m.leaf7Ebx ==> 2 in m.xcr0)
    && (2 in m.xcr0 ==> 26 in m.leaf1Ecx)
  }

  lemma ValidIsCoherent(m: Model)
    ensures Valid(m) <==> Coherent(m)
  {
  }

  lemma TrimIsIdempotent(m: Model)
    ensures Trim(Trim(m)) == Trim(m)
  {
  }

  lemma TrimIsDeflationary(m: Model)
    ensures Within(Trim(m), m)
  {
  }

  lemma TrimIsMonotone(a: Model, b: Model)
    requires Within(a, b)
    ensures Within(Trim(a), Trim(b))
  {
  }

  /** The negotiated model is the greatest lower bound of the two offers. */
  lemma IntersectIsMeet(m: Model, a: Model, b: Model)
    ensures Subset(m, Intersect(a, b)) <==> Subset(m, a) && Subset(m, b)
  {
  }

  /** What both machines can validly run is itself valid, so negotiation cannot break its own result. */
  lemma ValidClosedUnderIntersect(a: Model, b: Model)
    requires Valid(a) && Valid(b)
    ensures Valid(Intersect(a, b))
  {
    ValidIsCoherent(a);
    ValidIsCoherent(b);
    CoherentMeet(a, b);
    ValidIsCoherent(Intersect(a, b));
  }

  lemma CoherentMeet(a: Model, b: Model)
    requires Coherent(a) && Coherent(b)
    ensures Coherent(Intersect(a, b))
  {
    var c := Masked(Both(a, b));
    assert c.xcr0 == X87_SSE || c.xcr0 == X87_SSE_YMM;
  }

  /** A model fits a machine exactly if it is coherent and the machine has each of its features. */
  lemma SubsetMeans(m: Model, caps: Model)
    ensures Subset(m, caps) <==>
            && Coherent(m)
            && (forall bit | bit in m.leaf1Ecx :: bit in caps.leaf1Ecx)
            && (forall bit | bit in m.leaf1Edx :: bit in caps.leaf1Edx)
            && (forall bit | bit in m.leaf7Ebx :: bit in caps.leaf7Ebx)
            && (forall bit | bit in m.ext1Ecx :: bit in caps.ext1Ecx)
            && (forall bit | bit in m.ext1Edx :: bit in caps.ext1Edx)
            && (forall bit | bit in m.xcr0 :: bit in caps.xcr0)
  {
    ValidIsCoherent(m);
  }

  /** The negotiated model offers nothing that either machine lacks. */
  lemma IntersectIsWithinBoth(a: Model, b: Model)
    ensures Within(Intersect(a, b), a) && Within(Intersect(a, b), b)
  {
    TrimIsDeflationary(Both(a, b));
  }

  /** Two models that each contain the other, and agree on the rest, are one. */
  lemma WithinBothWays(a: Model, b: Model)
    requires Within(a, b) && Within(b, a) && a.version == b.version && a.reserved == b.reserved
    requires a.reserved2 == b.reserved2 && a.leaf7Ecx == b.leaf7Ecx && a.leaf7Edx == b.leaf7Edx
    ensures a == b
  {
  }

  /** Negotiating with oneself gives the same as negotiating with b exactly when b offers it all. */
  lemma SameAsAloneIff(a: Model, b: Model)
    ensures Intersect(a, a) == Intersect(a, b) <==> Within(Trim(a), b)
  {
    assert Both(a, a) == a;
    if Within(Trim(a), b) {
      TrimIsDeflationary(a);
      TrimIsIdempotent(a);
      TrimIsMonotone(Trim(a), Both(a, b));
      TrimIsMonotone(Both(a, b), a);
      WithinBothWays(Trim(a), Intersect(a, b));
    }
    TrimIsDeflationary(Both(a, b));
  }

  /** Every portable feature, and the baseline without AVX. */
  const WITH_AVX := Model(VERSION, 0, LEAF1_ECX, LEAF1_EDX, LEAF7_EBX, {}, {}, EXT1_ECX, EXT1_EDX, 0, X87_SSE_YMM)
  const WITHOUT_AVX := WITH_AVX.(leaf1Ecx := LEAF1_ECX - AVX_DEP, leaf7Ebx := LEAF7_EBX - {5}, xcr0 := X87_SSE)

  /** Two valid offers for which it is not the same: one machine has AVX and the other has not. */
  lemma LostOfferMatters()
    ensures Valid(WITH_AVX) && Valid(WITHOUT_AVX)
    ensures Intersect(WITH_AVX, WITH_AVX) == WITH_AVX && Intersect(WITH_AVX, WITHOUT_AVX) == WITHOUT_AVX != WITH_AVX
  {
    ValidIsCoherent(WITH_AVX);
    ValidIsCoherent(WITHOUT_AVX);
    assert Both(WITH_AVX, WITH_AVX) == WITH_AVX;
    assert Both(WITH_AVX, WITHOUT_AVX) == WITHOUT_AVX;
    assert 28 in WITH_AVX.leaf1Ecx && 28 !in WITHOUT_AVX.leaf1Ecx;
  }

  /** The struct that vmctx_cpu_model_trim() and vmctx_cpu_model_intersect() rewrite. */
  class Record {
    var model: Model

    constructor (m: Model)
      ensures model == m
    {
      model := m;
    }

    method TrimInPlace()
      modifies this
      ensures model == Trim(old(model))
    {
      model := model.(version := VERSION, reserved := 0, reserved2 := 0);
      model := model.(leaf1Ecx := model.leaf1Ecx * LEAF1_ECX, leaf1Edx := model.leaf1Edx * LEAF1_EDX);
      model := model.(leaf7Ebx := model.leaf7Ebx * LEAF7_EBX, leaf7Ecx := {}, leaf7Edx := {});
      model := model.(ext1Ecx := model.ext1Ecx * EXT1_ECX, ext1Edx := model.ext1Edx * EXT1_EDX);
      model := model.(xcr0 := model.xcr0 * X87_SSE_YMM);
      if model.leaf1Ecx * XSAVE != XSAVE {
        model := model.(leaf1Ecx := model.leaf1Ecx - XSAVE, xcr0 := model.xcr0 * X87_SSE);
      }
      if model.xcr0 * X87_SSE_YMM != X87_SSE_YMM || 28 !in model.leaf1Ecx {
        model := model.(xcr0 := model.xcr0 * X87_SSE, leaf1Ecx := model.leaf1Ecx - AVX_DEP,
                        leaf7Ebx := model.leaf7Ebx - {5});
      }
    }

    /** The output is written before b is read, so when it is b itself, b's offer counts only if it was the larger. */
    method IntersectInto(a: Record, b: Record)
      modifies this
      ensures model == Intersect(old(a.model), if b == this then old(a.model) else old(b.model))
      ensures model == Intersect(old(a.model), old(b.model)) <==> b != this || Within(Trim(old(a.model)), old(b.model))
    {
      SameAsAloneIff(a.model, b.model);
      model := a.model;
      model := Both(model, b.model);
      TrimInPlace();
    }
  }
}
