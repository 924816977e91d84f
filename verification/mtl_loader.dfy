/** `loadMTL` of src/Objloader.cpp over the lines of an already-read file:
    a small state machine whose state is the name of the current material
    and the material table. Colour and scalar payloads are abstract types
    (`V3`, `F`) read by the reader functions passed in. */
module MtlLoader {
  import opened Wrappers
  import opened TextScan

  /** One material: ambient, diffuse and specular colours, shininess and
      dissolve. */
  datatype Material<V3, F> = Material(ka: V3, kd: V3, ks: V3, ns: F, d: F)

  /** The loop state: the current material's name and the table. */
  datatype MtlState<V3, F> = MtlState(current: string, materials: map<string, Material<V3, F>>)

  /** The five prefixes that write a field of the current material. */
  predicate IsFieldPrefix(p: string) {
    p == "Ka" || p == "Kd" || p == "Ks" || p == "Ns" || p == "d"
  }

  /** `out_materials[current]` as a value: the entry, or the default one that
      `operator[]` would insert. */
  function CurrentEntry<V3, F>(st: MtlState<V3, F>, dflt: Material<V3, F>): Material<V3, F> {
    if st.current in st.materials then st.materials[st.current] else dflt
  }

  /** The name a `newmtl` line switches to: its second word, or the current
      name when there is none (a failed extraction leaves the string as it
      was). */
  function NewmtlName(words: seq<string>, current: string): string {
    if |words| >= 2 then words[1] else current
  }

  /** One line. `newmtl` makes the named material current and (re)sets its
      entry to the default. `Ka`, `Kd`, `Ks`, `Ns` and `d` read into one
      field of the current material's entry, creating it if absent, so the
      readers see the field's previous value; no other entry changes. Any
      other line leaves the state alone. */
  function MtlLine<V3, F>(st: MtlState<V3, F>, line: string, dflt: Material<V3, F>,
                          readV3: (V3, seq<string>) -> V3, readF: (F, seq<string>) -> F): (r: MtlState<V3, F>)
    ensures var words := Tokens(line);
            TokenOr(words, 0) == "newmtl" ==>
              r.current == NewmtlName(words, st.current) && r.materials == st.materials[r.current := dflt]
    ensures IsFieldPrefix(TokenOr(Tokens(line), 0)) ==>
              r.current == st.current &&
              r.materials.Keys == st.materials.Keys + {st.current} &&
              (forall n :: n in st.materials && n != st.current ==> r.materials[n] == st.materials[n])
    ensures var p := TokenOr(Tokens(line), 0);
            var m := CurrentEntry(st, dflt);
            var args := Args(Tokens(line));
            IsFieldPrefix(p) ==>
              (p == "Ka" ==> r.materials[st.current] == m.(ka := readV3(m.ka, args))) &&
              (p == "Kd" ==> r.materials[st.current] == m.(kd := readV3(m.kd, args))) &&
              (p == "Ks" ==> r.materials[st.current] == m.(ks := readV3(m.ks, args))) &&
              (p == "Ns" ==> r.materials[st.current] == m.(ns := readF(m.ns, args))) &&
              (p == "d" ==> r.materials[st.current] == m.(d := readF(m.d, args)))
    ensures var p := TokenOr(Tokens(line), 0);
            p != "newmtl" && !IsFieldPrefix(p) ==> r == st
  {
    var words := Tokens(line);
    var prefix := TokenOr(words, 0);
    var args := Args(words);
    var m := CurrentEntry(st, dflt);
    if prefix == "newmtl" then
      var name := NewmtlName(words, st.current);
      MtlState(name, st.materials[name := dflt])
    else if prefix == "Ka" then st.(materials := st.materials[st.current := m.(ka := readV3(m.ka, args))])
    else if prefix == "Kd" then st.(materials := st.materials[st.current := m.(kd := readV3(m.kd, args))])
    else if prefix == "Ks" then st.(materials := st.materials[st.current := m.(ks := readV3(m.ks, args))])
    else if prefix == "Ns" then st.(materials := st.materials[st.current := m.(ns := readF(m.ns, args))])
    else if prefix == "d" then st.(materials := st.materials[st.current := m.(d := readF(m.d, args))])
    else st
  }

  /** The read loop, oldest line first. Once the current material has an
      entry it keeps having one, and right after a `newmtl` line it has
      one. */
  function ParseMtl<V3, F>(st: MtlState<V3, F>, lines: seq<string>, dflt: Material<V3, F>,
                           readV3: (V3, seq<string>) -> V3, readF: (F, seq<string>) -> F): (r: MtlState<V3, F>)
    ensures st.current in st.materials ==> r.current in r.materials
    ensures |lines| > 0 && TokenOr(Tokens(lines[|lines| - 1]), 0) == "newmtl" ==> r.current in r.materials
    decreases |lines|
  {
    if |lines| == 0 then st
    else MtlLine(ParseMtl(st, lines[..|lines| - 1], dflt, readV3, readF), lines[|lines| - 1], dflt, readV3, readF)
  }

  /** `loadMTL`: a file that cannot be opened (`None`) gives false and leaves
      the table alone; otherwise the lines are read, starting with the
      empty name as current material, into the caller's table (which is
      not cleared), and the result is true. */
  function LoadMtl<V3, F>(file: Option<seq<string>>, materials: map<string, Material<V3, F>>,
                          dflt: Material<V3, F>, readV3: (V3, seq<string>) -> V3,
                          readF: (F, seq<string>) -> F): (r: (bool, map<string, Material<V3, F>>))
    ensures r.0 <==> file.Some?
    ensures file.None? ==> r.1 == materials
    ensures file.Some? ==> r.1 == ParseMtl(MtlState("", materials), file.value, dflt, readV3, readF).materials
    ensures file.Some? ==> r.1.Keys >= materials.Keys
  {
    match file
    case None => (false, materials)
    case Some(lines) =>
      KeysOnlyGrow(MtlState("", materials), lines, dflt, readV3, readF);
      (true, ParseMtl(MtlState("", materials), lines, dflt, readV3, readF).materials)
  }

  /** No line removes a material. */
  lemma {:induction false} KeysOnlyGrow<V3, F>(st: MtlState<V3, F>, lines: seq<string>, dflt: Material<V3, F>,
                                               readV3: (V3, seq<string>) -> V3, readF: (F, seq<string>) -> F)
    ensures ParseMtl(st, lines, dflt, readV3, readF).materials.Keys >= st.materials.Keys
    decreases |lines|
  {
    if |lines| > 0 {
      KeysOnlyGrow(st, lines[..|lines| - 1], dflt, readV3, readF);
    }
  }

  /** The names a sequence of lines selects with `newmtl`. */
  function SelectedNames(lines: seq<string>, initial: string): set<string>
    decreases |lines|
  {
    if |lines| == 0 then {initial}
    else
      var words := Tokens(lines[|lines| - 1]);
      var earlier := SelectedNames(lines[..|lines| - 1], initial);
      if TokenOr(words, 0) == "newmtl" && |words| >= 2 then earlier + {words[1]} else earlier
  }

  /** The current material is always the initial one or one a `newmtl`
      line named. */
  lemma {:induction false} CurrentIsSelected<V3, F>(st: MtlState<V3, F>, lines: seq<string>, dflt: Material<V3, F>,
                                                    readV3: (V3, seq<string>) -> V3, readF: (F, seq<string>) -> F)
    ensures ParseMtl(st, lines, dflt, readV3, readF).current in SelectedNames(lines, st.current)
    decreases |lines|
  {
    if |lines| > 0 {
      CurrentIsSelected(st, lines[..|lines| - 1], dflt, readV3, readF);
    }
  }

  /** A material the file never makes current keeps its entry (or its
      absence): every write goes to the current material only. */
  lemma {:induction false} UnselectedMaterialsKept<V3, F>(st: MtlState<V3, F>, lines: seq<string>, dflt: Material<V3, F>,
                                                          readV3: (V3, seq<string>) -> V3, readF: (F, seq<string>) -> F,
                                                          name: string)
    requires name !in SelectedNames(lines, st.current)
    ensures var r := ParseMtl(st, lines, dflt, readV3, readF);
            (name in r.materials <==> name in st.materials) &&
            (name in st.materials ==> r.materials[name] == st.materials[name])
    decreases |lines|
  {
    if |lines| > 0 {
      var init := lines[..|lines| - 1];
      assert SelectedNames(init, st.current) <= SelectedNames(lines, st.current);
      UnselectedMaterialsKept(st, init, dflt, readV3, readF, name);
      CurrentIsSelected(st, init, dflt, readV3, readF);
    }
  }
}
