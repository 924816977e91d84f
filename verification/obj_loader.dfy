/** `loadOBJ` of src/Objloader.cpp over the lines of an already-read file.
    Each line is split into words; the first word selects the line kind.
    Float payloads (`v`, `vt`, `vn` values) are an abstract type read by
    the reader functions passed in; face words are parsed with the same
    `sscanf` patterns as the source. */
module ObjLoader {
  import opened Wrappers
  import opened Decimal
  import opened TextScan

  /** One corner of a face: the 1-based indices a face word names. */
  datatype FaceRef = FaceRef(v: int, vt: Option<int>, vn: Option<int>)

  const FullPattern: seq<Directive> := [IntConv, Lit('/'), IntConv, Lit('/'), IntConv]
  const NormalPattern: seq<Directive> := [IntConv, Lit('/'), Lit('/'), IntConv]
  const UvPattern: seq<Directive> := [IntConv, Lit('/'), IntConv]
  const VertexPattern: seq<Directive> := [IntConv]

  /** A face word, tried against `%d/%d/%d`, `%d//%d`, `%d/%d` and `%d` in
      that order; the first pattern that converts all its values wins.
      `None` is a word none of them accepts, which the source leaves
      unassigned. */
  function ParseFaceWord(w: string): (r: Option<FaceRef>)
    ensures r.None? <==> |Scan(VertexPattern, w)| != 1
  {
    var full := Scan(FullPattern, w);
    if |full| == 3 then Some(FaceRef(full[0], Some(full[1]), Some(full[2])))
    else
      var normal := Scan(NormalPattern, w);
      if |normal| == 2 then Some(FaceRef(normal[0], None, Some(normal[1])))
      else
        var uv := Scan(UvPattern, w);
        if |uv| == 2 then Some(FaceRef(uv[0], Some(uv[1]), None))
        else
          var vertex := Scan(VertexPattern, w);
          if |vertex| == 1 then Some(FaceRef(vertex[0], None, None)) else None
  }

  predicate NonNegativeRef(r: FaceRef) {
    r.v >= 0 && (r.vt.Some? ==> r.vt.value >= 0) && (r.vn.Some? ==> r.vn.value >= 0)
  }

  /** The face word an exporter writes for a corner: `a/b/c`, `a//c`,
      `a/b` or `a`. */
  function FormatFaceRef(r: FaceRef): string
    requires NonNegativeRef(r)
  {
    match (r.vt, r.vn)
    case (Some(t), Some(n)) => NatToString(r.v) + ("/" + (NatToString(t) + ("/" + NatToString(n))))
    case (None, Some(n)) => NatToString(r.v) + ("/" + ("/" + NatToString(n)))
    case (Some(t), None) => NatToString(r.v) + ("/" + NatToString(t))
    case (None, None) => NatToString(r.v)
  }

  /** A `%d` never starts at a `/`. */
  lemma ScanIntAtSlash(fmt: seq<Directive>, rest: string)
    ensures Scan([IntConv] + fmt, "/" + rest) == []
  {
    assert ("/" + rest)[0] == '/';
  }

  /** A literal fails at the end of the input or at a different character. */
  lemma ScanLitMismatch(fmt: seq<Directive>, c: char, s: string)
    requires |s| == 0 || s[0] != c
    ensures Scan([Lit(c)] + fmt, s) == []
  {
  }

  /** A rendered number followed by a slash is read by `%d/`. */
  lemma ScanNumberSlash(fmt: seq<Directive>, n: nat, rest: string)
    ensures Scan([IntConv, Lit('/')] + fmt, NatToString(n) + ("/" + rest)) == [n as int] + Scan(fmt, rest)
  {
    assert [IntConv, Lit('/')] + fmt == [IntConv] + ([Lit('/')] + fmt);
    ScanIntConvOfNat([Lit('/')] + fmt, n, "/" + rest);
    ScanLitMatch(fmt, '/', rest);
  }

  lemma ScanLastNumber(n: nat)
    ensures Scan([IntConv], NatToString(n)) == [n as int]
  {
    assert NatToString(n) == NatToString(n) + "";
    ScanIntConvOfNat([], n, "");
  }

  lemma ScanFullForm(v: nat, t: nat, n: nat)
    ensures Scan([IntConv, Lit('/')] + [IntConv, Lit('/'), IntConv],
                 NatToString(v) + ("/" + (NatToString(t) + ("/" + NatToString(n))))) == [v, t, n]
  {
    ScanLastNumber(n);
    ScanNumberSlash([IntConv], t, NatToString(n));
    ScanNumberSlash([IntConv, Lit('/'), IntConv], v, NatToString(t) + ("/" + NatToString(n)));
  }

  lemma RoundTripFull(v: nat, t: nat, n: nat)
    ensures ParseFaceWord(FormatFaceRef(FaceRef(v, Some(t), Some(n)))) == Some(FaceRef(v, Some(t), Some(n)))
  {
    ScanFullForm(v, t, n);
    assert FullPattern == [IntConv, Lit('/')] + [IntConv, Lit('/'), IntConv];
  }

  lemma RoundTripNormal(v: nat, n: nat)
    ensures ParseFaceWord(FormatFaceRef(FaceRef(v, None, Some(n)))) == Some(FaceRef(v, None, Some(n)))
  {
    var c := NatToString(n);
    var w := NatToString(v) + ("/" + ("/" + c));
    assert FormatFaceRef(FaceRef(v, None, Some(n))) == w;
    ScanIntConvOfNat([Lit('/'), IntConv, Lit('/'), IntConv], v, "/" + ("/" + c));
    ScanLitMatch([IntConv, Lit('/'), IntConv], '/', "/" + c);
    ScanIntAtSlash([Lit('/'), IntConv], c);
    assert |Scan(FullPattern, w)| == 1;
    ScanIntConvOfNat([Lit('/'), Lit('/'), IntConv], v, "/" + ("/" + c));
    ScanLitMatch([Lit('/'), IntConv], '/', "/" + c);
    ScanLitMatch([IntConv], '/', c);
    ScanIntConvOfNat([], n, "");
    assert c + "" == c;
    assert Scan(NormalPattern, w) == [v, n];
  }

  lemma RoundTripUv(v: nat, t: nat)
    ensures ParseFaceWord(FormatFaceRef(FaceRef(v, Some(t), None))) == Some(FaceRef(v, Some(t), None))
  {
    var b := NatToString(t);
    var w := NatToString(v) + ("/" + b);
    assert FormatFaceRef(FaceRef(v, Some(t), None)) == w;
    ScanIntConvOfNat([Lit('/'), IntConv, Lit('/'), IntConv], v, "/" + b);
    ScanLitMatch([IntConv, Lit('/'), IntConv], '/', b);
    assert b == b + "";
    ScanIntConvOfNat([Lit('/'), IntConv], t, "");
    ScanLitMismatch([IntConv], '/', "");
    assert |Scan(FullPattern, w)| == 2;
    ScanIntConvOfNat([Lit('/'), Lit('/'), IntConv], v, "/" + b);
    ScanLitMatch([Lit('/'), IntConv], '/', b);
    ScanLitMismatch([IntConv], '/', b);
    assert |Scan(NormalPattern, w)| == 1;
    ScanIntConvOfNat([Lit('/'), IntConv], v, "/" + b);
    ScanLitMatch([IntConv], '/', b);
    ScanIntConvOfNat([], t, "");
    assert Scan(UvPattern, w) == [v, t];
  }

  lemma RoundTripVertex(v: nat)
    ensures ParseFaceWord(FormatFaceRef(FaceRef(v, None, None))) == Some(FaceRef(v, None, None))
  {
    var w := NatToString(v) + "";
    assert FormatFaceRef(FaceRef(v, None, None)) == w;
    ScanIntConvOfNat([Lit('/'), IntConv, Lit('/'), IntConv], v, "");
    ScanLitMismatch([IntConv, Lit('/'), IntConv], '/', "");
    ScanIntConvOfNat([Lit('/'), Lit('/'), IntConv], v, "");
    ScanLitMismatch([Lit('/'), IntConv], '/', "");
    ScanIntConvOfNat([Lit('/'), IntConv], v, "");
    ScanLitMismatch([IntConv], '/', "");
    ScanIntConvOfNat([], v, "");
    assert Scan(VertexPattern, w) == [v];
  }

  /** Each of the four face-word forms parses back to the indices it was
      written from, so the patterns are tried in an order that never
      mistakes one form for another. */
  lemma ParseFormatRoundTrip(r: FaceRef)
    requires NonNegativeRef(r)
    ensures ParseFaceWord(FormatFaceRef(r)) == Some(r)
  {
    match (r.vt, r.vn)
    case (Some(t), Some(n)) => RoundTripFull(r.v, t, n);
    case (None, Some(n)) => RoundTripNormal(r.v, n);
    case (Some(t), None) => RoundTripUv(r.v, t);
    case (None, None) => RoundTripVertex(r.v);
  }

  /** Digits and slashes: a face word is a single word of a line. */
  lemma FormatIsWord(r: FaceRef)
    requires NonNegativeRef(r)
    ensures IsWord(FormatFaceRef(r))
  {
    var w := FormatFaceRef(r);
    forall i | 0 <= i < |w| ensures !IsSpace(w[i]) {
      assert IsDigit(w[i]) || w[i] == '/';
    }
  }

  /** Everything `loadOBJ` collects while reading: the `v`, `vt` and `vn`
      payloads and the three index lists, already 0-based. */
  datatype ObjData<V3, V2> = ObjData(positions: seq<V3>, texcoords: seq<V2>, normals: seq<V3>,
                                     vertexIndices: seq<nat>, uvIndices: seq<nat>, normalIndices: seq<nat>)

  function EmptyObjData<V3, V2>(): (d: ObjData<V3, V2>)
    ensures |d.positions| == |d.texcoords| == |d.normals| == 0
    ensures |d.vertexIndices| == |d.uvIndices| == |d.normalIndices| == 0
  {
    ObjData([], [], [], [], [], [])
  }

  const UnsignedRange: int := 0x1_0000_0000

  /** `index - 1` as the source computes it: the parsed `int` is stored in an
      `unsigned int` and decremented in unsigned arithmetic, so a 1-based
      index becomes 0-based and index 0 wraps to 2^32 - 1. */
  function ZeroBased(index: int): (r: nat)
    ensures r < UnsignedRange
    ensures 1 <= index <= UnsignedRange ==> r == index - 1
    ensures index == 0 ==> r == UnsignedRange - 1
  {
    (index - 1) % UnsignedRange
  }

  /** The first word of a line, "" for a blank line (the prefix string is
      left empty when extraction finds nothing). */
  function Prefix(words: seq<string>): string {
    TokenOr(words, 0)
  }

  /** The three corners of a face line: the words after `f`, each "" when
      missing; words beyond the third are ignored. */
  function Corners(words: seq<string>): (cs: seq<Option<FaceRef>>)
    ensures |cs| == 3
  {
    [ParseFaceWord(TokenOr(words, 1)), ParseFaceWord(TokenOr(words, 2)), ParseFaceWord(TokenOr(words, 3))]
  }

  predicate CornerHasUv(c: Option<FaceRef>) {
    c.Some? && c.value.vt.Some?
  }

  predicate CornerHasNormal(c: Option<FaceRef>) {
    c.Some? && c.value.vn.Some?
  }

  /** `hasUVs` of the source: some corner carried a UV index. */
  predicate AnyUv(cs: seq<Option<FaceRef>>)
    requires |cs| == 3
  {
    CornerHasUv(cs[0]) || CornerHasUv(cs[1]) || CornerHasUv(cs[2])
  }

  /** `hasNormals` of the source: some corner carried a normal index. */
  predicate AnyNormal(cs: seq<Option<FaceRef>>)
    requires |cs| == 3
  {
    CornerHasNormal(cs[0]) || CornerHasNormal(cs[1]) || CornerHasNormal(cs[2])
  }

  /** A face line the source reads without touching an unassigned index:
      every corner parses, and a UV (normal) index on one corner means one
      on every corner. */
  predicate FaceDefined(words: seq<string>) {
    var cs := Corners(words);
    cs[0].Some? && cs[1].Some? && cs[2].Some? &&
    (AnyUv(cs) ==> CornerHasUv(cs[0]) && CornerHasUv(cs[1]) && CornerHasUv(cs[2])) &&
    (AnyNormal(cs) ==> CornerHasNormal(cs[0]) && CornerHasNormal(cs[1]) && CornerHasNormal(cs[2]))
  }

  predicate FaceHasUvs(words: seq<string>) {
    AnyUv(Corners(words))
  }

  predicate FaceHasNormals(words: seq<string>) {
    AnyNormal(Corners(words))
  }

  /** One `f` line: three vertex indices always, three UV indices when the
      face has UVs, three normal indices when it has normals; each index is
      the parsed one made 0-based. */
  function AddFace<V3, V2>(d: ObjData<V3, V2>, words: seq<string>): (e: ObjData<V3, V2>)
    requires FaceDefined(words)
    ensures e.positions == d.positions && e.texcoords == d.texcoords && e.normals == d.normals
    ensures var cs := Corners(words);
            e.vertexIndices == d.vertexIndices +
              [ZeroBased(cs[0].value.v), ZeroBased(cs[1].value.v), ZeroBased(cs[2].value.v)]
    ensures var cs := Corners(words);
            e.uvIndices == if FaceHasUvs(words) then d.uvIndices +
              [ZeroBased(cs[0].value.vt.value), ZeroBased(cs[1].value.vt.value), ZeroBased(cs[2].value.vt.value)]
            else d.uvIndices
    ensures var cs := Corners(words);
            e.normalIndices == if FaceHasNormals(words) then d.normalIndices +
              [ZeroBased(cs[0].value.vn.value), ZeroBased(cs[1].value.vn.value), ZeroBased(cs[2].value.vn.value)]
            else d.normalIndices
  {
    var cs := Corners(words);
    var c0, c1, c2 := cs[0].value, cs[1].value, cs[2].value;
    var vs := d.vertexIndices + [ZeroBased(c0.v), ZeroBased(c1.v), ZeroBased(c2.v)];
    var uvs := if AnyUv(cs) then d.uvIndices + [ZeroBased(c0.vt.value), ZeroBased(c1.vt.value), ZeroBased(c2.vt.value)]
               else d.uvIndices;
    var ns := if AnyNormal(cs) then d.normalIndices + [ZeroBased(c0.vn.value), ZeroBased(c1.vn.value), ZeroBased(c2.vn.value)]
              else d.normalIndices;
    d.(vertexIndices := vs, uvIndices := uvs, normalIndices := ns)
  }

  /** A line the source handles without undefined behaviour. */
  predicate LineDefined(line: string) {
    Prefix(Tokens(line)) == "f" ==> FaceDefined(Tokens(line))
  }

  predicate AllLinesDefined(lines: seq<string>) {
    forall i :: 0 <= i < |lines| ==> LineDefined(lines[i])
  }

  /** One pass of the read loop: dispatch on the prefix; `v`, `vt` and `vn`
      append a payload read from the remaining words (float parsing is the
      reader's business), `f` adds a face, anything else is ignored. */
  function ObjLine<V3, V2>(d: ObjData<V3, V2>, line: string,
                           readV3: seq<string> -> V3, readV2: seq<string> -> V2): (e: ObjData<V3, V2>)
    requires LineDefined(line)
    ensures var words := Tokens(line);
            Prefix(words) == "v" ==>
              e.positions == d.positions + [readV3(Args(words))] &&
              e.texcoords == d.texcoords && e.normals == d.normals &&
              e.vertexIndices == d.vertexIndices && e.uvIndices == d.uvIndices && e.normalIndices == d.normalIndices
    ensures var words := Tokens(line);
            Prefix(words) == "vt" ==>
              e.texcoords == d.texcoords + [readV2(Args(words))] &&
              e.positions == d.positions && e.normals == d.normals &&
              e.vertexIndices == d.vertexIndices && e.uvIndices == d.uvIndices && e.normalIndices == d.normalIndices
    ensures var words := Tokens(line);
            Prefix(words) == "vn" ==>
              e.normals == d.normals + [readV3(Args(words))] &&
              e.positions == d.positions && e.texcoords == d.texcoords &&
              e.vertexIndices == d.vertexIndices && e.uvIndices == d.uvIndices && e.normalIndices == d.normalIndices
    ensures var words := Tokens(line);
            Prefix(words) == "f" ==> e == AddFace(d, words)
    ensures var p := Prefix(Tokens(line));
            p != "v" && p != "vt" && p != "vn" && p != "f" ==> e == d
  {
    var words := Tokens(line);
    var prefix := Prefix(words);
    if prefix == "v" then d.(positions := d.positions + [readV3(Args(words))])
    else if prefix == "vt" then d.(texcoords := d.texcoords + [readV2(Args(words))])
    else if prefix == "vn" then d.(normals := d.normals + [readV3(Args(words))])
    else if prefix == "f" then AddFace(d, words)
    else d
  }

  /** The read loop over the whole file, oldest line first. Indices come
      in threes, one triple per face, and UV and normal indices never
      outnumber vertex indices. */
  function ParseObj<V3, V2>(lines: seq<string>, readV3: seq<string> -> V3, readV2: seq<string> -> V2): (d: ObjData<V3, V2>)
    requires AllLinesDefined(lines)
    ensures Triples(d)
    decreases |lines|
  {
    if |lines| == 0 then EmptyObjData()
    else
      var prev := ParseObj(lines[..|lines| - 1], readV3, readV2);
      ObjLineKeepsTriples(prev, lines[|lines| - 1], readV3, readV2);
      ObjLine(prev, lines[|lines| - 1], readV3, readV2)
  }

  /** Index lists made of whole triples, with UV and normal indices no more
      numerous than vertex indices. */
  predicate Triples<V3, V2>(d: ObjData<V3, V2>) {
    |d.vertexIndices| % 3 == 0 && |d.uvIndices| % 3 == 0 && |d.normalIndices| % 3 == 0 &&
    |d.uvIndices| <= |d.vertexIndices| && |d.normalIndices| <= |d.vertexIndices|
  }

  /** One line keeps the index lists in whole triples. */
  lemma ObjLineKeepsTriples<V3, V2>(d: ObjData<V3, V2>, line: string,
                                    readV3: seq<string> -> V3, readV2: seq<string> -> V2)
    requires LineDefined(line) && Triples(d)
    ensures Triples(ObjLine(d, line, readV3, readV2))
  {
    var words := Tokens(line);
    var e := ObjLine(d, line, readV3, readV2);
    if Prefix(words) == "f" {
      AddFaceKeepsTriples(d, words);
    } else {
      assert e.vertexIndices == d.vertexIndices && e.uvIndices == d.uvIndices && e.normalIndices == d.normalIndices;
    }
  }

  lemma TriplesStep(v: nat, t: nat, n: nat, v': nat, t': nat, n': nat)
    requires v % 3 == 0 && t % 3 == 0 && n % 3 == 0 && t <= v && n <= v
    requires v' == v + 3 && (t' == t || t' == t + 3) && (n' == n || n' == n + 3)
    ensures v' % 3 == 0 && t' % 3 == 0 && n' % 3 == 0 && t' <= v' && n' <= v'
  {
  }

  /** A face adds one vertex triple and at most one UV and one normal triple. */
  lemma AddFaceKeepsTriples<V3, V2>(d: ObjData<V3, V2>, words: seq<string>)
    requires FaceDefined(words) && Triples(d)
    ensures Triples(AddFace(d, words))
  {
    var e := AddFace(d, words);
    var v, t, n := |d.vertexIndices|, |d.uvIndices|, |d.normalIndices|;
    var v', t', n' := |e.vertexIndices|, |e.uvIndices|, |e.normalIndices|;
    assert v' == v + 3 && (t' == t || t' == t + 3) && (n' == n || n' == n + 3);
    TriplesStep(v, t, n, v', t', n');
  }

  /** Number of lines whose first word is `p`. */
  function CountPrefix(lines: seq<string>, p: string): nat
    decreases |lines|
  {
    if |lines| == 0 then 0
    else CountPrefix(lines[..|lines| - 1], p) + (if Prefix(Tokens(lines[|lines| - 1])) == p then 1 else 0)
  }

  /** Number of face lines that carry UV indices, or normal indices. */
  function CountFaces(lines: seq<string>, uvs: bool, normals: bool): nat
    decreases |lines|
  {
    if |lines| == 0 then 0
    else
      var words := Tokens(lines[|lines| - 1]);
      var counted := Prefix(words) == "f" && (uvs ==> FaceHasUvs(words)) && (normals ==> FaceHasNormals(words));
      CountFaces(lines[..|lines| - 1], uvs, normals) + (if counted then 1 else 0)
  }

  /** What the file contributes: one payload per `v`, `vt` and `vn` line,
      exactly three vertex indices per face line, and three UV (normal)
      indices per face line that has them. So UV and normal indices run
      short of the vertex indices exactly when some face lacks them. */
  lemma {:induction false} ParseObjCounts<V3, V2>(lines: seq<string>, readV3: seq<string> -> V3, readV2: seq<string> -> V2)
    requires AllLinesDefined(lines)
    ensures var d := ParseObj(lines, readV3, readV2);
            |d.positions| == CountPrefix(lines, "v") &&
            |d.texcoords| == CountPrefix(lines, "vt") &&
            |d.normals| == CountPrefix(lines, "vn") &&
            |d.vertexIndices| == 3 * CountPrefix(lines, "f") &&
            |d.uvIndices| == 3 * CountFaces(lines, true, false) &&
            |d.normalIndices| == 3 * CountFaces(lines, false, true)
    decreases |lines|
  {
    if |lines| > 0 {
      var init := lines[..|lines| - 1];
      assert AllLinesDefined(init) by {
        forall i | 0 <= i < |init| ensures LineDefined(init[i]) {
          assert init[i] == lines[i];
        }
      }
      ParseObjCounts(init, readV3, readV2);
    }
  }

  /** A face line with UVs always counts among the face lines. */
  lemma {:induction false} TexturedFacesAtMostFaces(lines: seq<string>, uvs: bool, normals: bool)
    ensures CountFaces(lines, uvs, normals) <= CountPrefix(lines, "f")
    ensures (forall i :: 0 <= i < |lines| && Prefix(Tokens(lines[i])) == "f" ==>
               (uvs ==> FaceHasUvs(Tokens(lines[i]))) && (normals ==> FaceHasNormals(Tokens(lines[i])))) ==>
            CountFaces(lines, uvs, normals) == CountPrefix(lines, "f")
    decreases |lines|
  {
    if |lines| > 0 {
      var init := lines[..|lines| - 1];
      TexturedFacesAtMostFaces(init, uvs, normals);
      assert forall i :: 0 <= i < |init| ==> init[i] == lines[i];
    }
  }

  /** The three output arrays `loadOBJ` appends to. */
  datatype Outputs<V3, V2> = Outputs(vertices: seq<V3>, uvs: seq<V2>, normals: seq<V3>)

  /** Every collected vertex index names a position, and every normal
      index that is used names a normal: the two lookups the source makes
      without a bounds check. */
  predicate Assemblable<V3, V2>(d: ObjData<V3, V2>) {
    (forall i :: 0 <= i < |d.vertexIndices| ==> d.vertexIndices[i] < |d.positions|) &&
    (forall i :: 0 <= i < |d.vertexIndices| && i < |d.normalIndices| ==> d.normalIndices[i] < |d.normals|)
  }

  /** The UV of output corner `i`: the `i`-th UV index of the whole file
      (not of the corner's own face) if there is one and it is in range,
      otherwise the fallback (0, 0). */
  function UvOf<V3, V2>(d: ObjData<V3, V2>, i: nat, zeroUv: V2): V2 {
    if i < |d.uvIndices| && d.uvIndices[i] < |d.texcoords| then d.texcoords[d.uvIndices[i]] else zeroUv
  }

  /** The normal of output corner `i`: the `i`-th normal index of the file
      if there is one, otherwise the placeholder (0, 1, 0). */
  function NormalOf<V3, V2>(d: ObjData<V3, V2>, i: nat, up: V3): V3
    requires Assemblable(d) && i < |d.vertexIndices|
  {
    if i < |d.normalIndices| then d.normals[d.normalIndices[i]] else up
  }

  /** `after` is `before` with one corner per collected vertex index
      appended to each of the three arrays. */
  ghost predicate AppendedCorners<V3, V2>(d: ObjData<V3, V2>, before: Outputs<V3, V2>, after: Outputs<V3, V2>,
                                         zeroUv: V2, up: V3)
    requires Assemblable(d)
  {
    var n := |d.vertexIndices|;
    |after.vertices| == |before.vertices| + n &&
    |after.uvs| == |before.uvs| + n &&
    |after.normals| == |before.normals| + n &&
    after.vertices[..|before.vertices|] == before.vertices &&
    after.uvs[..|before.uvs|] == before.uvs &&
    after.normals[..|before.normals|] == before.normals &&
    (forall i :: 0 <= i < n ==> after.vertices[|before.vertices| + i] == d.positions[d.vertexIndices[i]]) &&
    (forall i :: 0 <= i < n ==> after.uvs[|before.uvs| + i] == UvOf(d, i, zeroUv)) &&
    (forall i :: 0 <= i < n ==> after.normals[|before.normals| + i] == NormalOf(d, i, up))
  }

  /** The output loop: for each collected vertex index, push its position,
      its UV (or the fallback) and its normal (or the placeholder). The
      caller's arrays are appended to, never cleared, and all three grow
      by the same amount. */
  method Assemble<V3, V2>(d: ObjData<V3, V2>, out: Outputs<V3, V2>, zeroUv: V2, up: V3) returns (res: Outputs<V3, V2>)
    requires Assemblable(d)
    ensures AppendedCorners(d, out, res, zeroUv, up)
  {
    var vs, ts, ns := out.vertices, out.uvs, out.normals;
    var i := 0;
    while i < |d.vertexIndices|
      invariant 0 <= i <= |d.vertexIndices|
      invariant |vs| == |out.vertices| + i && |ts| == |out.uvs| + i && |ns| == |out.normals| + i
      invariant vs[..|out.vertices|] == out.vertices
      invariant ts[..|out.uvs|] == out.uvs
      invariant ns[..|out.normals|] == out.normals
      invariant forall j :: 0 <= j < i ==> vs[|out.vertices| + j] == d.positions[d.vertexIndices[j]]
      invariant forall j :: 0 <= j < i ==> ts[|out.uvs| + j] == UvOf(d, j, zeroUv)
      invariant forall j :: 0 <= j < i ==> ns[|out.normals| + j] == NormalOf(d, j, up)
    {
      vs := vs + [d.positions[d.vertexIndices[i]]];
      if i < |d.uvIndices| {
        if d.uvIndices[i] < |d.texcoords| {
          ts := ts + [d.texcoords[d.uvIndices[i]]];
        } else {
          ts := ts + [zeroUv];
        }
      } else {
        ts := ts + [zeroUv];
      }
      if i < |d.normalIndices| {
        ns := ns + [d.normals[d.normalIndices[i]]];
      } else {
        ns := ns + [up];
      }
      i := i + 1;
    }
    res := Outputs(vs, ts, ns);
  }

  /** `loadOBJ`: a file that cannot be opened (`None`) gives false and leaves
      the outputs alone; otherwise every line is read and the outputs are
      extended with one corner per collected vertex index, and the result
      is true. */
  method LoadObj<V3, V2>(file: Option<seq<string>>, out: Outputs<V3, V2>,
                         readV3: seq<string> -> V3, readV2: seq<string> -> V2,
                         zeroUv: V2, up: V3) returns (ok: bool, res: Outputs<V3, V2>)
    requires file.Some? ==> AllLinesDefined(file.value) && Assemblable(ParseObj(file.value, readV3, readV2))
    ensures ok <==> file.Some?
    ensures file.None? ==> res == out
    ensures file.Some? ==> AppendedCorners(ParseObj(file.value, readV3, readV2), out, res, zeroUv, up)
  {
    if file.None? {
      return false, out;
    }
    var d := ParseObj(file.value, readV3, readV2);
    res := Assemble(d, out, zeroUv, up);
    ok := true;
  }

  /** Corners written in one form share their UV and normal presence. */
  predicate SameForm(a: FaceRef, b: FaceRef) {
    a.vt.Some? == b.vt.Some? && a.vn.Some? == b.vn.Some?
  }

  /** The face line an exporter writes for three corners: `f a b c`. */
  function FaceLine(a: FaceRef, b: FaceRef, c: FaceRef): string
    requires NonNegativeRef(a) && NonNegativeRef(b) && NonNegativeRef(c)
  {
    Unwords(["f", FormatFaceRef(a), FormatFaceRef(b), FormatFaceRef(c)])
  }

  lemma FaceLineWords(a: FaceRef, b: FaceRef, c: FaceRef)
    requires NonNegativeRef(a) && NonNegativeRef(b) && NonNegativeRef(c)
    ensures Tokens(FaceLine(a, b, c)) == ["f", FormatFaceRef(a), FormatFaceRef(b), FormatFaceRef(c)]
  {
    FormatIsWord(a);
    FormatIsWord(b);
    FormatIsWord(c);
    assert IsWord("f") by {
      assert "f"[0] == 'f';
    }
    TokensUnwords(["f", FormatFaceRef(a), FormatFaceRef(b), FormatFaceRef(c)]);
  }

  lemma FaceLineCorners(a: FaceRef, b: FaceRef, c: FaceRef)
    requires NonNegativeRef(a) && NonNegativeRef(b) && NonNegativeRef(c)
    ensures Corners(Tokens(FaceLine(a, b, c))) == [Some(a), Some(b), Some(c)]
  {
    FaceLineWords(a, b, c);
    ParseFormatRoundTrip(a);
    ParseFormatRoundTrip(b);
    ParseFormatRoundTrip(c);
  }

  /** A face whose corners parsed as three corners of one form. */
  lemma AddFaceOfCorners<V3, V2>(d: ObjData<V3, V2>, words: seq<string>, a: FaceRef, b: FaceRef, c: FaceRef)
    requires Corners(words) == [Some(a), Some(b), Some(c)]
    requires SameForm(a, b) && SameForm(a, c)
    ensures FaceDefined(words)
    ensures AddFace(d, words).vertexIndices == d.vertexIndices + [ZeroBased(a.v), ZeroBased(b.v), ZeroBased(c.v)]
    ensures AddFace(d, words).uvIndices ==
            if a.vt.Some? then d.uvIndices + [ZeroBased(a.vt.value), ZeroBased(b.vt.value), ZeroBased(c.vt.value)]
            else d.uvIndices
    ensures AddFace(d, words).normalIndices ==
            if a.vn.Some? then d.normalIndices + [ZeroBased(a.vn.value), ZeroBased(b.vn.value), ZeroBased(c.vn.value)]
            else d.normalIndices
  {
    var cs := Corners(words);
    assert cs[0] == Some(a) && cs[1] == Some(b) && cs[2] == Some(c);
    assert FaceHasUvs(words) <==> a.vt.Some?;
    assert FaceHasNormals(words) <==> a.vn.Some?;
    assert FaceDefined(words);
  }

  /** A face line written from three corners of one form is read back as
      exactly those corners: it appends their vertex indices made 0-based,
      and their UV and normal indices when the form has them. */
  lemma FaceLineRoundTrip<V3, V2>(d: ObjData<V3, V2>, a: FaceRef, b: FaceRef, c: FaceRef)
    requires NonNegativeRef(a) && NonNegativeRef(b) && NonNegativeRef(c)
    requires SameForm(a, b) && SameForm(a, c)
    ensures var words := Tokens(FaceLine(a, b, c));
            && FaceDefined(words)
            && AddFace(d, words).vertexIndices == d.vertexIndices + [ZeroBased(a.v), ZeroBased(b.v), ZeroBased(c.v)]
            && AddFace(d, words).uvIndices ==
               (if a.vt.Some? then d.uvIndices + [ZeroBased(a.vt.value), ZeroBased(b.vt.value), ZeroBased(c.vt.value)]
                else d.uvIndices)
            && AddFace(d, words).normalIndices ==
               (if a.vn.Some? then d.normalIndices + [ZeroBased(a.vn.value), ZeroBased(b.vn.value), ZeroBased(c.vn.value)]
                else d.normalIndices)
  {
    FaceLineCorners(a, b, c);
    AddFaceOfCorners(d, Tokens(FaceLine(a, b, c)), a, b, c);
  }
}
