/** The pure part of `Mesh::Draw` in include/Mesh.hpp: which sampler uniform
    each texture is bound through, on which texture unit, whether the
    `texture1` fallback uniform is set, and which draw call is issued. */
module MeshDraw {
  import opened Decimal

  /** A loaded texture: GL id, map type (e.g. "texture_diffuse") and path. */
  datatype Texture = Texture(id: nat, kind: string, path: string)

  /** A mesh; vertices are opaque (`V`), indices are element indices. */
  datatype Mesh<V> = Mesh(vertices: seq<V>, indices: seq<nat>, textures: seq<Texture>)

  /** Texture `textureId` bound on `unit`, with the uniform `uniform` set to
      `value`. */
  datatype SamplerBinding = SamplerBinding(unit: nat, uniform: string, value: nat, textureId: nat)

  datatype DrawCall = Elements(count: nat) | Arrays(count: nat)

  /** Everything `Draw` sends to GL apart from the GL handles. */
  datatype DrawCommands = DrawCommands(bindings: seq<SamplerBinding>, setTexture1: bool, call: DrawCall)

  /** The five map types with a counter of their own. */
  const KnownKinds: seq<string> :=
    ["texture_diffuse", "texture_specular", "texture_normal", "texture_height", "texture_roughness"]

  /** The counter the if-else chain of `Draw` advances for `kind`, or -1
      for a type with no counter. */
  function KindSlot(kind: string): (slot: int)
    ensures -1 <= slot < |KnownKinds|
    ensures slot >= 0 ==> KnownKinds[slot] == kind
  {
    if kind == "texture_diffuse" then 0
    else if kind == "texture_specular" then 1
    else if kind == "texture_normal" then 2
    else if kind == "texture_height" then 3
    else if kind == "texture_roughness" then 4
    else -1
  }

  predicate IsKnownKind(kind: string) {
    KindSlot(kind) >= 0
  }

  /** Each known type has its own counter. */
  lemma SlotOfKnownKind(k: nat)
    requires k < |KnownKinds|
    ensures KindSlot(KnownKinds[k]) == k
  {
  }

  /** How many of `ts` have map type `kind`. */
  function CountKind(ts: seq<Texture>, kind: string): nat
    decreases |ts|
  {
    if |ts| == 0 then 0
    else CountKind(ts[..|ts| - 1], kind) + (if ts[|ts| - 1].kind == kind then 1 else 0)
  }

  /** The uniform name texture `i` should get: a known type followed by its
      1-based position among the textures of that type, or an unknown type
      bare. */
  function ExpectedUniform(ts: seq<Texture>, i: nat): string
    requires i < |ts|
  {
    var kind := ts[i].kind;
    if IsKnownKind(kind) then kind + NatToString(1 + CountKind(ts[..i], kind)) else kind
  }

  /** The binding list `Draw` should produce: texture `i` on unit `i`, its
      sampler uniform set to `i`. */
  ghost predicate BindingsFollowTextures(ts: seq<Texture>, bs: seq<SamplerBinding>) {
    |bs| == |ts| &&
    forall i :: 0 <= i < |ts| ==> bs[i] == SamplerBinding(i, ExpectedUniform(ts, i), i, ts[i].id)
  }

  /** `counters` holds, for each known type, one more than the number of
      textures of that type in `prefix`. */
  ghost predicate CountersMatch(prefix: seq<Texture>, counters: seq<nat>) {
    |counters| == |KnownKinds| &&
    forall k :: 0 <= k < |KnownKinds| ==> counters[k] == 1 + CountKind(prefix, KnownKinds[k])
  }

  /** The binding loop of `Mesh::Draw`, with one counter per known type
      starting at 1 and advanced after use; an unknown type gets an empty
      suffix and advances nothing. */
  method BindTextures(ts: seq<Texture>) returns (bs: seq<SamplerBinding>)
    ensures BindingsFollowTextures(ts, bs)
  {
    var counters: seq<nat> := [1, 1, 1, 1, 1];
    bs := [];
    var i := 0;
    while i < |ts|
      invariant 0 <= i <= |ts|
      invariant CountersMatch(ts[..i], counters)
      invariant |bs| == i
      invariant forall j :: 0 <= j < i ==> bs[j] == SamplerBinding(j, ExpectedUniform(ts, j), j, ts[j].id)
    {
      var kind := ts[i].kind;
      var slot := KindSlot(kind);
      var number := "";
      CountersStep(ts, i, counters);
      if slot >= 0 {
        number := NatToString(counters[slot]);
        counters := counters[slot := counters[slot] + 1];
      }
      bs := bs + [SamplerBinding(i, kind + number, i, ts[i].id)];
      i := i + 1;
    }
  }

  /** One turn of the binding loop: the name it builds is the expected one,
      and advancing the counter of the texture's type (if any) keeps the
      counters in step with the longer prefix. */
  lemma CountersStep(ts: seq<Texture>, i: nat, counters: seq<nat>)
    requires i < |ts| && CountersMatch(ts[..i], counters)
    ensures var slot := KindSlot(ts[i].kind);
      if slot >= 0 then
        ExpectedUniform(ts, i) == ts[i].kind + NatToString(counters[slot]) &&
        CountersMatch(ts[..i + 1], counters[slot := counters[slot] + 1])
      else
        ExpectedUniform(ts, i) == ts[i].kind && CountersMatch(ts[..i + 1], counters)
  {
    var kind := ts[i].kind;
    var slot := KindSlot(kind);
    var next := if slot >= 0 then counters[slot := counters[slot] + 1] else counters;
    forall k | 0 <= k < |KnownKinds|
      ensures next[k] == 1 + CountKind(ts[..i + 1], KnownKinds[k])
    {
      CountKindStep(ts, i, KnownKinds[k]);
      SlotOfKnownKind(k);
      assert kind == KnownKinds[k] <==> slot == k;
    }
  }

  /** Extending a prefix by one texture counts that texture. */
  lemma CountKindStep(ts: seq<Texture>, i: nat, kind: string)
    requires i < |ts|
    ensures CountKind(ts[..i + 1], kind) == CountKind(ts[..i], kind) + (if ts[i].kind == kind then 1 else 0)
  {
    assert ts[..i + 1][..i] == ts[..i];
  }

  /** `Mesh::Draw`: bind every texture, set `texture1` to unit 0 when there
      is any texture, then draw `indices.size()` elements when there are
      indices and `vertices.size()` vertices otherwise. */
  method Draw<V>(mesh: Mesh<V>) returns (cmds: DrawCommands)
    ensures BindingsFollowTextures(mesh.textures, cmds.bindings)
    ensures cmds.setTexture1 <==> |mesh.textures| > 0
    ensures cmds.call.Elements? <==> |mesh.indices| > 0
    ensures cmds.call.Elements? ==> cmds.call.count == |mesh.indices|
    ensures cmds.call.Arrays? ==> cmds.call.count == |mesh.vertices|
  {
    var bs := BindTextures(mesh.textures);
    var call := if |mesh.indices| != 0 then Elements(|mesh.indices|) else Arrays(|mesh.vertices|);
    cmds := DrawCommands(bs, |mesh.textures| > 0, call);
  }

  predicate NoDigits(s: string) {
    forall i :: 0 <= i < |s| ==> !IsDigit(s[i])
  }

  /** In a digit-free name followed by digits, the first digit sits right
      after the name. */
  lemma FirstDigitAfterName(k: string, d: string)
    requires NoDigits(k) && |d| > 0 && AllDigits(d)
    ensures forall i :: 0 <= i < |k| ==> !IsDigit((k + d)[i])
    ensures IsDigit((k + d)[|k|])
  {
    assert (k + d)[|k|] == d[0];
  }

  /** A digit-free name followed by digits splits in only one way. */
  lemma NameDigitsSplit(k1: string, d1: string, k2: string, d2: string)
    requires NoDigits(k1) && NoDigits(k2)
    requires |d1| > 0 && |d2| > 0 && AllDigits(d1) && AllDigits(d2)
    requires k1 + d1 == k2 + d2
    ensures k1 == k2 && d1 == d2
  {
    FirstDigitAfterName(k1, d1);
    FirstDigitAfterName(k2, d2);
    assert |k1| == |k2|;
    assert k1 == (k1 + d1)[..|k1|];
    assert k2 == (k2 + d2)[..|k2|];
    assert d1 == (k1 + d1)[|k1|..];
    assert d2 == (k2 + d2)[|k2|..];
  }

  lemma KnownKindsHaveNoDigits(kind: string)
    requires IsKnownKind(kind)
    ensures NoDigits(kind)
  {
    assert kind == KnownKinds[KindSlot(kind)];
  }

  /** A later texture of a type has seen more of that type before it. */
  lemma {:induction false} CountKindGrows(ts: seq<Texture>, i: nat, j: nat)
    requires i < j <= |ts|
    ensures CountKind(ts[..j], ts[i].kind) >= CountKind(ts[..i], ts[i].kind) + 1
    decreases j - i
  {
    var kind := ts[i].kind;
    assert ts[..j][..j - 1] == ts[..j - 1];
    if j == i + 1 {
      assert ts[..j][j - 1] == ts[i];
    } else {
      CountKindGrows(ts, i, j - 1);
    }
  }

  /** The uniform names given to textures of the five known types are
      pairwise distinct, however the types are interleaved. */
  lemma KnownUniformsDistinct(ts: seq<Texture>, i: nat, j: nat)
    requires i < j < |ts|
    requires IsKnownKind(ts[i].kind) && IsKnownKind(ts[j].kind)
    ensures ExpectedUniform(ts, i) != ExpectedUniform(ts, j)
  {
    var ki, kj := ts[i].kind, ts[j].kind;
    var ni, nj := 1 + CountKind(ts[..i], ki), 1 + CountKind(ts[..j], kj);
    if ExpectedUniform(ts, i) == ExpectedUniform(ts, j) {
      KnownKindsHaveNoDigits(ki);
      KnownKindsHaveNoDigits(kj);
      NameDigitsSplit(ki, NatToString(ni), kj, NatToString(nj));
      NatToStringInjective(ni, nj);
      CountKindGrows(ts, i, j);
      assert false;
    }
  }
}
