/** Loading a mesh from Wavefront OBJ text (src/obj.rs): the line dispatch on
    `v`, `vn`, `vt` and `f` records, the `a/b/c` face-reference parser, and the
    expansion of the faces into a flat vertex list. The file is given as its
    sequence of lines; number parsing is a parameter the model does not
    interpret. */
module ObjLoader {
  import opened Glm
  import opened Casts
  import opened Vertices

  /** `str::parse::<f32>`: a number, or nothing when the text is not one. */
  type Parser = string -> Option<real>

  /** One `f` record: the (position, texcoord, normal) reference triple of each
      of its three corners, in the order they appear. */
  datatype Face = Face(c0: Vec3, c1: Vec3, c2: Vec3)

  /** The four lists `load` fills. */
  datatype Mesh = Mesh(vertices: seq<Vec3>, normals: seq<Vec3>, texcoords: seq<Vec3>, faces: seq<Face>)

  const EmptyMesh := Mesh([], [], [], [])

  // ---------------------------------------------------------------------------
  // Tokens

  /** `char::is_whitespace`: the Unicode White_Space property. */
  predicate IsWhitespace(c: char) {
    || '\U{0009}' <= c <= '\U{000D}'
    || c == '\U{0020}' || c == '\U{0085}' || c == '\U{00A0}' || c == '\U{1680}'
    || '\U{2000}' <= c <= '\U{200A}'
    || c == '\U{2028}' || c == '\U{2029}' || c == '\U{202F}' || c == '\U{205F}' || c == '\U{3000}'
  }

  /** The end of the run of non-whitespace characters starting at `i`. */
  function TokenEnd(s: string, i: nat): (n: nat)
    requires i <= |s|
    ensures i <= n <= |s|
    ensures forall j :: i <= j < n ==> !IsWhitespace(s[j])
    ensures n == |s| || IsWhitespace(s[n])
    decreases |s| - i
  {
    if i == |s| || IsWhitespace(s[i]) then i else TokenEnd(s, i + 1)
  }

  /** `split_whitespace`: the maximal runs of non-whitespace characters, in order. */
  function Tokens(s: string): seq<string>
    decreases |s|
  {
    if |s| == 0 then []
    else if IsWhitespace(s[0]) then Tokens(s[1..])
    else
      var n := TokenEnd(s, 0);
      [s[..n]] + Tokens(s[n..])
  }

  /** The characters of `s` that are not whitespace, in order. */
  function Printable(s: string): string {
    if |s| == 0 then []
    else (if IsWhitespace(s[0]) then [] else [s[0]]) + Printable(s[1..])
  }

  function Concat(ts: seq<string>): string {
    if |ts| == 0 then [] else ts[0] + Concat(ts[1..])
  }

  predicate IsToken(t: string) {
    |t| > 0 && forall j :: 0 <= j < |t| ==> !IsWhitespace(t[j])
  }

  lemma PrintableOfToken(t: string)
    requires forall j :: 0 <= j < |t| ==> !IsWhitespace(t[j])
    ensures Printable(t) == t
  {
    if |t| > 0 {
      PrintableOfToken(t[1..]);
    }
  }

  lemma PrintableAppend(s: string, t: string)
    ensures Printable(s + t) == Printable(s) + Printable(t)
  {
    if |s| > 0 {
      assert (s + t)[1..] == s[1..] + t;
      PrintableAppend(s[1..], t);
    } else {
      assert s + t == t;
    }
  }

  /** Every token is non-empty and free of whitespace, and the tokens put back
      together are exactly the line's non-whitespace characters: nothing is
      lost, reordered or invented. */
  lemma {:induction false} TokensPartitionLine(s: string)
    ensures forall k :: 0 <= k < |Tokens(s)| ==> IsToken(Tokens(s)[k])
    ensures Concat(Tokens(s)) == Printable(s)
    decreases |s|
  {
    if |s| > 0 {
      if IsWhitespace(s[0]) {
        TokensPartitionLine(s[1..]);
      } else {
        var n := TokenEnd(s, 0);
        TokensPartitionLine(s[n..]);
        assert s == s[..n] + s[n..];
        PrintableAppend(s[..n], s[n..]);
        PrintableOfToken(s[..n]);
        var rest := Tokens(s[n..]);
        assert Tokens(s) == [s[..n]] + rest;
        assert Concat([s[..n]] + rest) == s[..n] + Concat(rest) by {
          assert ([s[..n]] + rest)[1..] == rest;
        }
        forall k | 0 <= k < |Tokens(s)| ensures IsToken(Tokens(s)[k]) {
          if k > 0 {
            assert Tokens(s)[k] == rest[k - 1];
          }
        }
      }
    }
  }

  /** A run of non-whitespace from `i` to `n` that stops at whitespace or at
      the end of the line ends exactly at `n`. */
  lemma {:induction false} TokenEndAt(s: string, i: nat, n: nat)
    requires i <= n <= |s|
    requires forall j :: i <= j < n ==> !IsWhitespace(s[j])
    requires n == |s| || IsWhitespace(s[n])
    ensures TokenEnd(s, i) == n
    decreases n - i
  {
    if i < n {
      TokenEndAt(s, i + 1, n);
    }
  }

  /** Leading whitespace yields no token. */
  lemma {:induction false} LeadingWhitespaceSkipped(w: string, s: string)
    requires forall j :: 0 <= j < |w| ==> IsWhitespace(w[j])
    ensures Tokens(w + s) == Tokens(s)
    decreases |w|
  {
    if |w| > 0 {
      assert (w + s)[0] == w[0];
      assert (w + s)[1..] == w[1..] + s;
      LeadingWhitespaceSkipped(w[1..], s);
    } else {
      assert w + s == s;
    }
  }

  /** Tokens are maximal: after optional whitespace, a whole run of
      non-whitespace is one token, whether it ends the line or is followed by
      a whitespace character and the rest of the line. */
  lemma TokensMaximal(w: string, t: string, c: char, rest: string)
    requires forall j :: 0 <= j < |w| ==> IsWhitespace(w[j])
    requires IsToken(t) && IsWhitespace(c)
    ensures Tokens(w + t) == [t]
    ensures Tokens(w + t + [c] + rest) == [t] + Tokens(rest)
  {
    LeadingWhitespaceSkipped(w, t);
    TokenEndAt(t, 0, |t|);
    assert t[..|t|] == t && t[|t|..] == [];
    var s := t + [c] + rest;
    assert w + t + [c] + rest == w + s;
    LeadingWhitespaceSkipped(w, s);
    assert forall j :: 0 <= j < |t| ==> s[j] == t[j];
    TokenEndAt(s, 0, |t|);
    assert s[..|t|] == t;
    assert s[|t|..] == [c] + rest;
    assert ([c] + rest)[1..] == rest;
  }

  /** `vn` is a single token, not `v` followed by `n`. */
  lemma NormalKeyword()
    ensures Tokens("vn") == ["vn"]
    ensures Tokens("vn 1") == ["vn"] + Tokens("1")
  {
    TokensMaximal("", "vn", ' ', "1");
    assert "" + "vn" == "vn";
    assert "" + "vn" + [' '] + "1" == "vn 1";
  }

  /** A line is blank (yields no tokens) exactly when it is all whitespace. */
  lemma {:induction false} BlankLine(s: string)
    ensures Tokens(s) == [] <==> forall j :: 0 <= j < |s| ==> IsWhitespace(s[j])
    decreases |s|
  {
    if |s| > 0 {
      if IsWhitespace(s[0]) {
        BlankLine(s[1..]);
        if forall j :: 0 <= j < |s[1..]| ==> IsWhitespace(s[1..][j]) {
          forall j | 0 <= j < |s| ensures IsWhitespace(s[j]) {
            if j > 0 {
              assert s[j] == s[1..][j - 1];
            }
          }
        }
      }
    }
  }

  // ---------------------------------------------------------------------------
  // Face references

  /** `str::split(sep)`: the pieces between separators, empty ones included;
      a string without a separator is a single piece. */
  function SplitOn(s: string, sep: char): (r: seq<string>)
    ensures |r| >= 1
    decreases |s|
  {
    if |s| == 0 then [""]
    else
      var rest := SplitOn(s[1..], sep);
      if s[0] == sep then [""] + rest else [[s[0]] + rest[0]] + rest[1..]
  }

  /** The pieces put back together with the separator between them. */
  function Join(ps: seq<string>, sep: char): string
    requires |ps| >= 1
  {
    if |ps| == 1 then ps[0] else ps[0] + [sep] + Join(ps[1..], sep)
  }

  /** Splitting loses nothing: joining the pieces gives the string back, and
      no piece holds a separator. */
  lemma {:induction false} SplitJoin(s: string, sep: char)
    ensures Join(SplitOn(s, sep), sep) == s
    ensures forall k :: 0 <= k < |SplitOn(s, sep)| ==> sep !in SplitOn(s, sep)[k]
    decreases |s|
  {
    if |s| > 0 {
      var rest := SplitOn(s[1..], sep);
      SplitJoin(s[1..], sep);
      if s[0] == sep {
        assert SplitOn(s, sep) == [""] + rest;
        assert ([""] + rest)[1..] == rest;
        assert Join([""] + rest, sep) == [sep] + Join(rest, sep);
        assert s == [s[0]] + s[1..];
        forall k | 0 <= k < |SplitOn(s, sep)| ensures sep !in SplitOn(s, sep)[k] {
          if k > 0 {
            assert SplitOn(s, sep)[k] == rest[k - 1];
          }
        }
      } else {
        var r := [[s[0]] + rest[0]] + rest[1..];
        assert SplitOn(s, sep) == r;
        if |rest| == 1 {
          assert Join(r, sep) == [s[0]] + rest[0];
        } else {
          assert r[1..] == rest[1..];
          assert Join(rest, sep) == rest[0] + [sep] + Join(rest[1..], sep);
          assert Join(r, sep) == [s[0]] + rest[0] + [sep] + Join(rest[1..], sep);
        }
        assert s == [s[0]] + s[1..];
        forall k | 0 <= k < |r| ensures sep !in r[k] {
          if k > 0 {
            assert r[k] == rest[k];
          } else {
            assert sep !in rest[0];
          }
        }
      }
    }
  }

  /** `indices.get(i).and_then(|s| s.parse().ok()).unwrap_or(0.0)`. */
  function Field(parse: Parser, pieces: seq<string>, i: nat): (r: real)
    ensures i >= |pieces| ==> r == 0.0
    ensures i < |pieces| && parse(pieces[i]).None? ==> r == 0.0
    ensures i < |pieces| && parse(pieces[i]).Some? ==> r == parse(pieces[i]).value
  {
    if i < |pieces| then
      match parse(pieces[i])
      case Some(v) => v
      case None => 0.0
    else 0.0
  }

  /** The `parse_face` closure: the first three slash-separated fields of a
      corner token as (position, texcoord, normal) references, each 0 when it
      is missing, empty or not a number. */
  function ParseFace(parse: Parser, token: string): Vec3 {
    var pieces := SplitOn(token, '/');
    Vec3(Field(parse, pieces, 0), Field(parse, pieces, 1), Field(parse, pieces, 2))
  }

  /** A character other than the separator joins the first piece. */
  lemma SplitOnOther(c: char, s: string, sep: char)
    requires c != sep
    ensures SplitOn([c] + s, sep) == [[c] + SplitOn(s, sep)[0]] + SplitOn(s, sep)[1..]
  {
    assert ([c] + s)[1..] == s;
  }

  /** A separator starts a new piece. */
  lemma SplitOnSeparator(s: string, sep: char)
    ensures SplitOn([sep] + s, sep) == [""] + SplitOn(s, sep)
  {
    assert ([sep] + s)[1..] == s;
  }

  /** A string without a separator is one piece. */
  lemma {:induction false} SplitWithoutSeparator(s: string, sep: char)
    requires sep !in s
    ensures SplitOn(s, sep) == [s]
    decreases |s|
  {
    if |s| > 0 {
      SplitWithoutSeparator(s[1..], sep);
      assert [s[0]] + s[1..] == s;
    }
  }

  /** `7//3` refers to position 7 and normal 3, with no texcoord. */
  lemma SlashSlashToken(parse: Parser)
    requires parse("7") == Some(7.0) && parse("3") == Some(3.0) && parse("") == None
    ensures ParseFace(parse, "7//3") == Vec3(7.0, 0.0, 3.0)
  {
    SplitWithoutSeparator("3", '/');
    assert "/3" == ['/'] + "3";
    SplitOnSeparator("3", '/');
    assert "//3" == ['/'] + "/3";
    SplitOnSeparator("/3", '/');
    assert "7//3" == ['7'] + "//3";
    SplitOnOther('7', "//3", '/');
    assert ['7'] + "" == "7";
    assert SplitOn("7//3", '/') == ["7", "", "3"];
  }

  /** A corner token with no slash is a position reference alone. */
  lemma PlainToken(parse: Parser, token: string)
    requires '/' !in token
    ensures ParseFace(parse, token) == Vec3(Field(parse, [token], 0), 0.0, 0.0)
  {
    SplitWithoutSeparator(token, '/');
  }

  // ---------------------------------------------------------------------------
  // Lines

  /** What one line contributes to the mesh. */
  datatype Record = Position(p: Vec3) | Normal(n: Vec3) | TexCoord(t: Vec3) | FaceRecord(f: Face) | Ignored

  /** `parts[i].parse().unwrap_or(0.0)`. */
  function NumberOr0(parse: Parser, s: string): (r: real)
    ensures parse(s).None? ==> r == 0.0
    ensures parse(s).Some? ==> r == parse(s).value
  {
    match parse(s)
    case Some(v) => v
    case None => 0.0
  }

  /** The `match parts[0]` of `load`: `v` and `vn` need four tokens, `vt` three
      and `f` four; anything else, blank lines included, is ignored. */
  function ParseLine(parse: Parser, line: string): Record {
    var parts := Tokens(line);
    if |parts| == 0 then Ignored
    else if parts[0] == "v" && |parts| >= 4 then
      Position(Vec3(NumberOr0(parse, parts[1]), NumberOr0(parse, parts[2]), NumberOr0(parse, parts[3])))
    else if parts[0] == "vn" && |parts| >= 4 then
      Normal(Vec3(NumberOr0(parse, parts[1]), NumberOr0(parse, parts[2]), NumberOr0(parse, parts[3])))
    else if parts[0] == "vt" && |parts| >= 3 then
      TexCoord(Vec3(NumberOr0(parse, parts[1]), NumberOr0(parse, parts[2]), 0.0))
    else if parts[0] == "f" && |parts| >= 4 then
      FaceRecord(Face(ParseFace(parse, parts[1]), ParseFace(parse, parts[2]), ParseFace(parse, parts[3])))
    else Ignored
  }

  /** The record kind is decided by the keyword and the token count alone. */
  lemma LineKinds(parse: Parser, line: string)
    ensures var parts, r := Tokens(line), ParseLine(parse, line);
      && (r.Position? <==> |parts| >= 4 && parts[0] == "v")
      && (r.Normal? <==> |parts| >= 4 && parts[0] == "vn")
      && (r.TexCoord? <==> |parts| >= 3 && parts[0] == "vt")
      && (r.FaceRecord? <==> |parts| >= 4 && parts[0] == "f")
      && (r.Ignored? <==>
            (|parts| == 0 || !(
              || (parts[0] == "v" && |parts| >= 4) || (parts[0] == "vn" && |parts| >= 4)
              || (parts[0] == "vt" && |parts| >= 3) || (parts[0] == "f" && |parts| >= 4))))
  {
  }

  /** Tokens past the ones a record reads make no difference: the fourth and
      later corners of a polygon, a fourth texture coordinate, trailing
      comments. */
  lemma ExtraTokensIgnored(parse: Parser, line1: string, line2: string)
    requires |Tokens(line1)| >= 4 && |Tokens(line2)| >= 4
    requires Tokens(line1)[..4] == Tokens(line2)[..4]
    ensures ParseLine(parse, line1) == ParseLine(parse, line2)
  {
    var p, q := Tokens(line1), Tokens(line2);
    assert p[0] == p[..4][0] && p[1] == p[..4][1] && p[2] == p[..4][2] && p[3] == p[..4][3];
    assert q[0] == q[..4][0] && q[1] == q[..4][1] && q[2] == q[..4][2] && q[3] == q[..4][3];
  }

  /** A `vt` record reads only its first two values: tokens after the third
      make no difference. */
  lemma TexCoordExtraTokensIgnored(parse: Parser, line1: string, line2: string)
    requires |Tokens(line1)| >= 3 && |Tokens(line2)| >= 3
    requires Tokens(line1)[0] == "vt" && Tokens(line1)[..3] == Tokens(line2)[..3]
    ensures ParseLine(parse, line1) == ParseLine(parse, line2)
    ensures ParseLine(parse, line1).TexCoord?
  {
    var p, q := Tokens(line1), Tokens(line2);
    assert p[0] == p[..3][0] && p[1] == p[..3][1] && p[2] == p[..3][2];
    assert q[0] == q[..3][0] && q[1] == q[..3][1] && q[2] == q[..3][2];
  }

  /** A texture-coordinate record always has 0 as its third component. */
  lemma TexCoordFlat(parse: Parser, line: string)
    requires ParseLine(parse, line).TexCoord?
    ensures ParseLine(parse, line).t.z == 0.0
  {
  }

  /** Adds one record to the mesh. */
  function Add(m: Mesh, r: Record): Mesh {
    match r
    case Position(p) => m.(vertices := m.vertices + [p])
    case Normal(n) => m.(normals := m.normals + [n])
    case TexCoord(t) => m.(texcoords := m.texcoords + [t])
    case FaceRecord(f) => m.(faces := m.faces + [f])
    case Ignored => m
  }

  /** The mesh built from the lines, first to last. */
  function Parsed(parse: Parser, lines: seq<string>): Mesh {
    if |lines| == 0 then EmptyMesh
    else Add(Parsed(parse, lines[..|lines| - 1]), ParseLine(parse, lines[|lines| - 1]))
  }

  /** An ignored line changes no list, wherever it stands. */
  lemma {:induction false} IgnoredLineChangesNothing(parse: Parser, before: seq<string>, line: string, after: seq<string>)
    requires ParseLine(parse, line).Ignored?
    ensures Parsed(parse, before + [line] + after) == Parsed(parse, before + after)
    decreases |after|
  {
    if |after| == 0 {
      assert before + [line] + after == before + [line];
      assert (before + [line])[..|before|] == before;
      assert before + after == before;
    } else {
      var init := after[..|after| - 1];
      IgnoredLineChangesNothing(parse, before, line, init);
      assert (before + [line] + after)[..|before + [line] + after| - 1] == before + [line] + init;
      assert (before + after)[..|before + after| - 1] == before + init;
    }
  }

  /** Lines are read in order: the lists of a file are those of its first part
      followed by what its last line adds. */
  lemma ParsedAppend(parse: Parser, lines: seq<string>, line: string)
    ensures var m, r := Parsed(parse, lines), ParseLine(parse, line);
      && Parsed(parse, lines + [line]).vertices == m.vertices + (if r.Position? then [r.p] else [])
      && Parsed(parse, lines + [line]).normals == m.normals + (if r.Normal? then [r.n] else [])
      && Parsed(parse, lines + [line]).texcoords == m.texcoords + (if r.TexCoord? then [r.t] else [])
      && Parsed(parse, lines + [line]).faces == m.faces + (if r.FaceRecord? then [r.f] else [])
  {
    assert (lines + [line])[..|lines|] == lines;
  }

  /** Every stored texture coordinate has 0 as its third component. */
  lemma {:induction false} TexCoordsFlat(parse: Parser, lines: seq<string>)
    ensures forall k :: 0 <= k < |Parsed(parse, lines).texcoords| ==> Parsed(parse, lines).texcoords[k].z == 0.0
    decreases |lines|
  {
    if |lines| > 0 {
      var init := lines[..|lines| - 1];
      TexCoordsFlat(parse, init);
      var m := Parsed(parse, init);
      var r := ParseLine(parse, lines[|lines| - 1]);
      if r.TexCoord? {
        TexCoordFlat(parse, lines[|lines| - 1]);
        forall k | 0 <= k < |Parsed(parse, lines).texcoords| ensures Parsed(parse, lines).texcoords[k].z == 0.0 {
          if k < |m.texcoords| {
            assert Parsed(parse, lines).texcoords[k] == m.texcoords[k];
          }
        }
      }
    }
  }

  // ---------------------------------------------------------------------------
  // Expansion

  /** The reference `k` does not make `get_vertex_array` index out of bounds:
      whenever the guard `k > 0.0 && (k as usize) <= len` passes, so does the
      index `(k - 1.0) as usize`. */
  predicate IndexSafe(k: real, len: nat) {
    k > 0.0 && AsUsize(k) <= len ==> AsUsize(k - 1.0) < len
  }

  /** The guarded lookup of `get_vertex_array`: the referenced element, or the
      zero vector when the guard fails. */
  function Lookup(list: seq<Vec3>, k: real): Vec3
    requires IndexSafe(k, |list|)
  {
    if k > 0.0 && AsUsize(k) <= |list| then list[AsUsize(k - 1.0)] else Zero3
  }

  /** A whole-number reference is always safe: 1 to len selects element k - 1,
      and 0, a negative number or one above len gives the zero vector. */
  lemma LookupWholeNumber(list: seq<Vec3>, k: int)
    requires |list| < USIZE_MAX
    ensures IndexSafe(k as real, |list|)
    ensures 1 <= k <= |list| ==> Lookup(list, k as real) == list[k - 1]
    ensures k < 1 || |list| < k ==> Lookup(list, k as real) == Zero3
  {
    if k > 0 && k <= USIZE_MAX {
      AsUsizeOfNat(k);
      AsUsizeOfNat(k - 1);
      assert (k - 1) as real == k as real - 1.0;
    }
  }

  /** The one unsafe case the guard lets through: a fraction between 0 and 1
      against an empty list indexes element 0. */
  lemma FractionOnEmptyList(k: real)
    requires 0.0 < k < 1.0
    ensures !IndexSafe(k, 0)
  {
  }

  predicate CornerSafe(m: Mesh, corner: Vec3) {
    IndexSafe(corner.x, |m.vertices|) && IndexSafe(corner.y, |m.texcoords|) && IndexSafe(corner.z, |m.normals|)
  }

  predicate FaceSafe(m: Mesh, f: Face) {
    CornerSafe(m, f.c0) && CornerSafe(m, f.c1) && CornerSafe(m, f.c2)
  }

  predicate MeshSafe(m: Mesh) {
    forall k :: 0 <= k < |m.faces| ==> FaceSafe(m, m.faces[k])
  }

  /** Corner `i` (0, 1, 2) of a face. */
  function CornerOf(f: Face, i: nat): Vec3
    requires i < 3
  {
    if i == 0 then f.c0 else if i == 1 then f.c1 else f.c2
  }

  /** The vertex one corner produces: the first reference picks the position,
      the second the texcoord and the third the normal. */
  function CornerVertex(m: Mesh, corner: Vec3): Vertex
    requires CornerSafe(m, corner)
  {
    New(Lookup(m.vertices, corner.x), Lookup(m.normals, corner.z), Lookup(m.texcoords, corner.y))
  }

  /** The three vertices of one face, corner 0 first. */
  function FaceVertices(m: Mesh, f: Face): seq<Vertex>
    requires FaceSafe(m, f)
  {
    [CornerVertex(m, f.c0), CornerVertex(m, f.c1), CornerVertex(m, f.c2)]
  }

  /** The vertices of faces[0 .. n], three per face. */
  function Expand(m: Mesh, n: nat): seq<Vertex>
    requires n <= |m.faces| && MeshSafe(m)
  {
    if n == 0 then []
    else
      Expand(m, n - 1) + FaceVertices(m, m.faces[n - 1])
  }

  /** The expansion has three vertices per face, in face order and within a
      face in corner order 0, 1, 2. */
  lemma {:induction false} ExpandShape(m: Mesh, n: nat)
    requires n <= |m.faces| && MeshSafe(m)
    ensures |Expand(m, n)| == 3 * n
    ensures forall i :: 0 <= i < 3 * n ==>
      CornerSafe(m, CornerOf(m.faces[i / 3], i % 3)) && Expand(m, n)[i] == CornerVertex(m, CornerOf(m.faces[i / 3], i % 3))
  {
    if n > 0 {
      ExpandShape(m, n - 1);
      var e := Expand(m, n);
      forall i | 0 <= i < 3 * n
        ensures CornerSafe(m, CornerOf(m.faces[i / 3], i % 3)) && e[i] == CornerVertex(m, CornerOf(m.faces[i / 3], i % 3))
      {
        assert FaceSafe(m, m.faces[i / 3]);
        if i >= 3 * (n - 1) {
          assert i / 3 == n - 1;
        }
      }
    }
  }

  /** Every expanded vertex is untransformed and white. */
  lemma ExpandedVerticesFresh(m: Mesh, i: nat)
    requires MeshSafe(m) && i < 3 * |m.faces|
    ensures |Expand(m, |m.faces|)| == 3 * |m.faces|
    ensures Untransformed(Expand(m, |m.faces|)[i]) && Expand(m, |m.faces|)[i].color == Vec3(1.0, 1.0, 1.0)
  {
    ExpandShape(m, |m.faces|);
  }

  /** The parsed mesh held by `Obj`. */
  class Obj {
    var vertices: seq<Vec3>
    var normals: seq<Vec3>
    var texcoords: seq<Vec3>
    var faces: seq<Face>

    function Contents(): Mesh
      reads this
    {
      Mesh(vertices, normals, texcoords, faces)
    }

    /** `Obj::load` from the file's lines onward: each line is split into
        tokens and dispatched on its keyword. */
    constructor Load(parse: Parser, lines: seq<string>)
      ensures Contents() == Parsed(parse, lines)
    {
      var vs: seq<Vec3> := [];
      var ns: seq<Vec3> := [];
      var ts: seq<Vec3> := [];
      var fs: seq<Face> := [];
      var i := 0;
      while i < |lines|
        invariant 0 <= i <= |lines|
        invariant Mesh(vs, ns, ts, fs) == Parsed(parse, lines[..i])
      {
        var line := lines[i];
        var parts := Tokens(line);
        assert lines[..i + 1][..i] == lines[..i];
        if |parts| == 0 {
        } else if parts[0] == "v" && |parts| >= 4 {
          vs := vs + [Vec3(NumberOr0(parse, parts[1]), NumberOr0(parse, parts[2]), NumberOr0(parse, parts[3]))];
        } else if parts[0] == "vn" && |parts| >= 4 {
          ns := ns + [Vec3(NumberOr0(parse, parts[1]), NumberOr0(parse, parts[2]), NumberOr0(parse, parts[3]))];
        } else if parts[0] == "vt" && |parts| >= 3 {
          ts := ts + [Vec3(NumberOr0(parse, parts[1]), NumberOr0(parse, parts[2]), 0.0)];
        } else if parts[0] == "f" && |parts| >= 4 {
          var face1 := ParseFace(parse, parts[1]);
          var face2 := ParseFace(parse, parts[2]);
          var face3 := ParseFace(parse, parts[3]);
          fs := fs + [Face(face1, face2, face3)];
        }
        i := i + 1;
      }
      assert lines[..|lines|] == lines;
      vertices := vs;
      normals := ns;
      texcoords := ts;
      faces := fs;
    }

    /** `get_vertex_array`: three vertices per face, in face order. */
    method GetVertexArray() returns (vertexArray: seq<Vertex>)
      requires MeshSafe(Contents())
      ensures vertexArray == Expand(Contents(), |faces|)
    {
      ghost var m := Contents();
      vertexArray := [];
      var j := 0;
      while j < |faces|
        invariant 0 <= j <= |faces|
        invariant vertexArray == Expand(m, j)
      {
        var face := faces[j];
        assert FaceSafe(m, face);
        ghost var before := vertexArray;
        for i := 0 to 3
          invariant vertexArray == before + FaceVertices(m, face)[..i]
        {
          var faceIndices := if i == 0 then face.c0 else if i == 1 then face.c1 else face.c2;
          assert faceIndices == CornerOf(face, i) && CornerSafe(m, faceIndices);
          var position := Lookup(vertices, faceIndices.x);
          var texcoord := Lookup(texcoords, faceIndices.y);
          var normal := Lookup(normals, faceIndices.z);
          ghost var prior := vertexArray;
          vertexArray := vertexArray + [New(position, normal, texcoord)];
          CornerStep(m, face, i, before, prior, vertexArray);
        }
        assert FaceVertices(m, face)[..3] == FaceVertices(m, face);
        j := j + 1;
      }
    }
  }

  /** One pass of the corner loop of `get_vertex_array` appends the vertex of
      corner `i`. */
  lemma CornerStep(m: Mesh, face: Face, i: nat, before: seq<Vertex>, prior: seq<Vertex>, after: seq<Vertex>)
    requires i < 3 && FaceSafe(m, face)
    requires prior == before + FaceVertices(m, face)[..i]
    requires after == prior + [CornerVertex(m, CornerOf(face, i))]
    ensures after == before + FaceVertices(m, face)[..i + 1]
  {
    assert FaceVertices(m, face)[..i + 1] == FaceVertices(m, face)[..i] + [FaceVertices(m, face)[i]];
  }

  /** Loading then expanding: a file whose references are all safe yields
      three vertices per `f` record. */
  lemma LoadedVertexCount(parse: Parser, lines: seq<string>)
    requires MeshSafe(Parsed(parse, lines))
    ensures |Expand(Parsed(parse, lines), |Parsed(parse, lines).faces|)| == 3 * |Parsed(parse, lines).faces|
  {
    ExpandShape(Parsed(parse, lines), |Parsed(parse, lines).faces|);
  }
}
