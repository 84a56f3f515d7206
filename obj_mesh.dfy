/**
 * Shape_From_File.parse_into_mesh: the Wavefront OBJ reader. Lines are
 * classified by their v / vn / vt / f keyword; the fields of v, vn and vt
 * lines are collected as text; every face token is unpacked once (its
 * position, texture and normal entries are copied out and it gets the next
 * vertex number) and a repeated token reuses its number. Four-token faces
 * are split into two triangles a,b,c and c,d,a. Numeric values are kept as
 * the text they were read from: the model tracks which entry lands where,
 * not what number it denotes.
 */
module ObjMesh {
  import opened ObjText

  /**
   * An entry after JavaScript's unary plus: the text of an entry that
   * exists (its numeric value is not modelled), or NaN for an entry read
   * past either end of its array.
   */
  datatype Num = Parsed(text: string) | NaN

  /** The fields collected so far from v, vn and vt lines (verts, vertNormals, textures). */
  datatype Sources = Sources(verts: seq<string>, vertNormals: seq<string>, textures: seq<string>)

  /** The `unpacked` object of parse_into_mesh. */
  datatype Unpacked = Unpacked(
    verts: seq<Num>,
    norms: seq<Num>,
    textures: seq<Num>,
    hashindices: map<string, nat>,
    indices: seq<nat>,
    index: nat)

  const EmptyUnpacked: Unpacked := Unpacked([], [], [], map[], [], 0)

  /** arr[base * width + c] after the unary plus. */
  function Fetch(arr: seq<string>, base: Option<int>, width: nat, c: nat): Num
  {
    if base.None? then NaN
    else
      var k := base.value * width + c;
      if 0 <= k < |arr| then Parsed(arr[k]) else NaN
  }

  /** The width entries of the record numbered base. */
  function Record(arr: seq<string>, base: Option<int>, width: nat): (r: seq<Num>)
    ensures |r| == width
  {
    seq(width, c requires 0 <= c < width => Fetch(arr, base, width, c))
  }

  /** Number(s) - 1 */
  function Decremented(s: string): Option<int>
  {
    match ToNumber(s)
    case None => None
    case Some(n) => Some(n - 1)
  }

  /** vertex[0] - 1: the 0-based position record of a face token. */
  function PositionBase(parts: seq<string>): Option<int>
    requires |parts| >= 1
  {
    Decremented(parts[0])
  }

  /**
   * (vertex[k] - 1 || vertex[0]): the texture (k = 1) or normal (k = 2)
   * record of a face token. When field k is missing, not a number or the
   * number 1, the expression falls back to the position field itself,
   * not decremented.
   */
  function AttributeBase(parts: seq<string>, k: nat): Option<int>
    requires |parts| >= 1
  {
    var d := if k < |parts| then Decremented(parts[k]) else None;
    if d.None? || d == Some(0) then ToNumber(parts[0]) else d
  }

  /**
   * The fallback reads the record one past the position's own: for a
   * token "p" (no texture or normal field) and for "p/1/1" alike, the
   * texture and normal records used are p while the position record is p - 1.
   */
  lemma FallbackSkipsOneRecord(p: nat)
    ensures PositionBase([Decimal(p)]) == Some(p - 1)
    ensures AttributeBase([Decimal(p)], 1) == Some(p) && AttributeBase([Decimal(p)], 2) == Some(p)
    ensures AttributeBase([Decimal(p), "1", "1"], 1) == Some(p)
    ensures AttributeBase([Decimal(p), "1", "1"], 2) == Some(p)
  {
    NumberOfDecimal(p);
    NumberOfDecimal(1);
    assert Decimal(1) == "1";
  }

  /** The face token "p/q/r" written with decimal numerals. */
  function Token(p: nat, q: nat, r: nat): string
  {
    Decimal(p) + "/" + Decimal(q) + "/" + Decimal(r)
  }

  /** Splitting "p/q/r" on '/' gives the three numerals. */
  lemma TokenSplit(p: nat, q: nat, r: nat)
    ensures Split(Token(p, q, r), '/') == [Decimal(p), Decimal(q), Decimal(r)]
  {
    var parts := [Decimal(p), Decimal(q), Decimal(r)];
    forall k | 0 <= k < |parts| ensures '/' !in parts[k] {
      assert AllDigits(parts[k]);
    }
    assert parts[1..][1..] == [Decimal(r)];
    assert Join(parts[1..], '/') == Decimal(q) + "/" + Decimal(r);
    assert Join(parts, '/') == Token(p, q, r);
    SplitJoin(parts, '/');
  }

  /**
   * How the fields of "p/q/r" are read: position record p - 1, and texture
   * record q - 1 and normal record r - 1, except that a field equal to 1
   * falls back to p, one record past the position's own.
   */
  lemma TokenFields(p: nat, q: nat, r: nat)
    ensures var parts := Split(Token(p, q, r), '/');
      && PositionBase(parts) == Some(p - 1)
      && AttributeBase(parts, 1) == Some(if q == 1 then p as int else q - 1)
      && AttributeBase(parts, 2) == Some(if r == 1 then p as int else r - 1)
  {
    TokenSplit(p, q, r);
    NumberOfDecimal(p);
    NumberOfDecimal(q);
    NumberOfDecimal(r);
    var parts := [Decimal(p), Decimal(q), Decimal(r)];
    assert Decremented(parts[1]) == Some(q - 1);
    assert Decremented(parts[2]) == Some(r - 1);
  }

  /** A position or normal record that lies inside its array: its three entries. */
  lemma RecordOf3(arr: seq<string>, b: int)
    requires 0 <= b && 3 * b + 3 <= |arr|
    ensures Record(arr, Some(b), 3) == [Parsed(arr[3 * b]), Parsed(arr[3 * b + 1]), Parsed(arr[3 * b + 2])]
  {
  }

  /** A texture record that lies inside its array: its two entries. */
  lemma RecordOf2(arr: seq<string>, b: int)
    requires 0 <= b && 2 * b + 2 <= |arr|
    ensures Record(arr, Some(b), 2) == [Parsed(arr[2 * b]), Parsed(arr[2 * b + 1])]
  {
  }

  /** A record that starts past the end of its array: NaN entries only (undefined * 1). */
  lemma RecordPast(arr: seq<string>, b: int, width: nat)
    requires b * width >= |arr|
    ensures Record(arr, Some(b), width) == seq(width, c => NaN)
  {
    forall c | 0 <= c < width ensures Fetch(arr, Some(b), width, c) == NaN {
      assert b * width + c >= |arr|;
    }
  }

  /**
   * Handling token tok appends, from the data read so far, position record
   * pb and normal record nb (three entries each) and texture record tb (two
   * entries, only once vt data exists); a record inside that data is
   * copied, one past its end reads as NaN entries, and what was there before
   * is kept.
   */
  predicate CopiesRecords(u: Unpacked, src: Sources, tok: string, pb: int, tb: int, nb: int)
  {
    var n := AddToken(u, src, tok);
    && |n.verts| == |u.verts| + 3 && n.verts[..|u.verts|] == u.verts
    && |n.norms| == |u.norms| + 3 && n.norms[..|u.norms|] == u.norms
    && (0 <= pb && 3 * pb + 3 <= |src.verts| ==>
          n.verts == u.verts + [Parsed(src.verts[3 * pb]), Parsed(src.verts[3 * pb + 1]), Parsed(src.verts[3 * pb + 2])])
    && (0 <= nb && 3 * nb + 3 <= |src.vertNormals| ==>
          n.norms == u.norms + [Parsed(src.vertNormals[3 * nb]), Parsed(src.vertNormals[3 * nb + 1]),
                                Parsed(src.vertNormals[3 * nb + 2])])
    && (3 * pb >= |src.verts| ==> n.verts == u.verts + [NaN, NaN, NaN])
    && (3 * nb >= |src.vertNormals| ==> n.norms == u.norms + [NaN, NaN, NaN])
    && (|src.textures| == 0 ==> n.textures == u.textures)
    && (|src.textures| > 0 ==> |n.textures| == |u.textures| + 2 && n.textures[..|u.textures|] == u.textures)
    && (0 <= tb && 2 * tb + 2 <= |src.textures| ==>
          n.textures == u.textures + [Parsed(src.textures[2 * tb]), Parsed(src.textures[2 * tb + 1])])
    && (|src.textures| > 0 && 2 * tb >= |src.textures| ==> n.textures == u.textures + [NaN, NaN])
  }

  /** A new token copies out the records its fields name. */
  lemma NewTokenCopies(u: Unpacked, src: Sources, tok: string, pb: int, tb: int, nb: int)
    requires tok !in u.hashindices
    requires PositionBase(Split(tok, '/')) == Some(pb)
    requires AttributeBase(Split(tok, '/'), 1) == Some(tb)
    requires AttributeBase(Split(tok, '/'), 2) == Some(nb)
    ensures CopiesRecords(u, src, tok, pb, tb, nb)
  {
    AddNewToken(u, src, tok);
    var n := AddToken(u, src, tok);
    assert n.verts[..|u.verts|] == u.verts;
    assert n.norms[..|u.norms|] == u.norms;
    if 0 <= pb && 3 * pb + 3 <= |src.verts| {
      RecordOf3(src.verts, pb);
    }
    if 3 * pb >= |src.verts| {
      RecordPast(src.verts, pb, 3);
    }
    if 0 <= nb && 3 * nb + 3 <= |src.vertNormals| {
      RecordOf3(src.vertNormals, nb);
    }
    if 3 * nb >= |src.vertNormals| {
      RecordPast(src.vertNormals, nb, 3);
    }
    if |src.textures| > 0 {
      assert n.textures[..|u.textures|] == u.textures;
    }
    if 0 <= tb && 2 * tb + 2 <= |src.textures| {
      RecordOf2(src.textures, tb);
    }
    if 2 * tb >= |src.textures| {
      RecordPast(src.textures, tb, 2);
    }
  }

  /**
   * A new token "p/q/r" copies out position record p - 1, normal record
   * r - 1 (p when r is 1) and, once vt data exists, texture record q - 1
   * (p when q is 1).
   */
  lemma NewTokenRecords(u: Unpacked, src: Sources, p: nat, q: nat, r: nat)
    requires Token(p, q, r) !in u.hashindices
    ensures CopiesRecords(u, src, Token(p, q, r), p - 1, if q == 1 then p else q - 1, if r == 1 then p else r - 1)
  {
    TokenFields(p, q, r);
    NewTokenCopies(u, src, Token(p, q, r), p - 1, if q == 1 then p else q - 1, if r == 1 then p else r - 1);
  }

  /**
   * The handling of one face token: a token seen before pushes its
   * number again; a new token copies out its position, texture (only when
   * some vt data has been read) and normal records and takes the next number.
   */
  function AddToken(u: Unpacked, src: Sources, tok: string): (r: Unpacked)
  {
    if tok in u.hashindices then u.(indices := u.indices + [u.hashindices[tok]])
    else
      var parts := Split(tok, '/');
      var textures := if |src.textures| > 0 then Record(src.textures, AttributeBase(parts, 1), 2) else [];
      Unpacked(
        u.verts + Record(src.verts, PositionBase(parts), 3),
        u.norms + Record(src.vertNormals, AttributeBase(parts, 2), 3),
        u.textures + textures,
        u.hashindices[tok := u.index],
        u.indices + [u.index],
        u.index + 1)
  }

  /** A token seen before only pushes its number again. */
  lemma AddKnownToken(u: Unpacked, src: Sources, tok: string)
    requires tok in u.hashindices
    ensures AddToken(u, src, tok) == u.(indices := u.indices + [u.hashindices[tok]])
  {
  }

  /**
   * A new token takes the next number, and its position, normal and
   * (once vt data exists) texture records are appended.
   */
  lemma AddNewToken(u: Unpacked, src: Sources, tok: string)
    requires tok !in u.hashindices
    ensures var r := AddToken(u, src, tok);
      var parts := Split(tok, '/');
      && r.index == u.index + 1
      && r.hashindices == u.hashindices[tok := u.index]
      && r.indices == u.indices + [u.index]
      && r.verts == u.verts + Record(src.verts, PositionBase(parts), 3)
      && r.norms == u.norms + Record(src.vertNormals, AttributeBase(parts, 2), 3)
      && r.textures == u.textures
           + (if |src.textures| > 0 then Record(src.textures, AttributeBase(parts, 1), 2) else [])
  {
  }

  /**
   * Every token handled ends up hashed and pushes the number it holds;
   * numbers already given out are never changed, and only a new token adds one.
   */
  lemma AddTokenKeepsNumbers(u: Unpacked, src: Sources, tok: string)
    ensures var r := AddToken(u, src, tok);
      && tok in r.hashindices
      && r.indices == u.indices + [r.hashindices[tok]]
      && (forall t :: t in u.hashindices ==> t in r.hashindices && r.hashindices[t] == u.hashindices[t])
      && (forall t :: t in r.hashindices ==> t in u.hashindices || t == tok)
  {
  }

  /** The tokens handled one after the other. */
  function UnpackTokens(u: Unpacked, src: Sources, toks: seq<string>): Unpacked
  {
    if toks == [] then u
    else AddToken(UnpackTokens(u, src, toks[..|toks| - 1]), src, toks[|toks| - 1])
  }

  /** One more token is handled after the others. */
  lemma UnpackOneMore(u: Unpacked, src: Sources, toks: seq<string>, tok: string)
    ensures UnpackTokens(u, src, toks + [tok]) == AddToken(UnpackTokens(u, src, toks), src, tok)
  {
    assert (toks + [tok])[..|toks|] == toks;
  }

  /**
   * What makes the unpacked arrays a mesh: three position and three
   * normal entries per vertex number, every index and every hashed
   * number below the next free number, and distinct tokens numbered apart.
   */
  predicate Consistent(u: Unpacked)
  {
    && |u.verts| == 3 * u.index
    && |u.norms| == 3 * u.index
    && (forall k :: 0 <= k < |u.indices| ==> u.indices[k] < u.index)
    && (forall t :: t in u.hashindices ==> u.hashindices[t] < u.index)
    && (forall t, t' :: t in u.hashindices && t' in u.hashindices && t != t'
          ==> u.hashindices[t] != u.hashindices[t'])
  }

  lemma {:induction false} UnpackKeepsConsistent(u: Unpacked, src: Sources, toks: seq<string>)
    requires Consistent(u)
    ensures Consistent(UnpackTokens(u, src, toks))
    ensures UnpackTokens(u, src, toks).index >= u.index
  {
    if toks != [] {
      UnpackKeepsConsistent(u, src, toks[..|toks| - 1]);
      var m := UnpackTokens(u, src, toks[..|toks| - 1]);
      var tok := toks[|toks| - 1];
      if tok in m.hashindices {
        AddKnownToken(m, src, tok);
      } else {
        AddNewToken(m, src, tok);
      }
    }
  }

  /**
   * Every handled token ends up hashed, and the index pushed for it is the
   * number its token holds at the end: a repeated token reuses its number.
   * Numbers already given out are never changed.
   */
  lemma {:induction false} UnpackEmitsHashedNumbers(u: Unpacked, src: Sources, toks: seq<string>)
    ensures var r := UnpackTokens(u, src, toks);
      && |r.indices| == |u.indices| + |toks|
      && r.indices[..|u.indices|] == u.indices
      && (forall t :: t in u.hashindices ==> t in r.hashindices && r.hashindices[t] == u.hashindices[t])
      && (forall k :: 0 <= k < |toks| ==>
            toks[k] in r.hashindices && r.indices[|u.indices| + k] == r.hashindices[toks[k]])
  {
    if toks != [] {
      var init := toks[..|toks| - 1];
      UnpackEmitsHashedNumbers(u, src, init);
      var m := UnpackTokens(u, src, init);
      var r := AddToken(m, src, toks[|toks| - 1]);
      AddTokenKeepsNumbers(m, src, toks[|toks| - 1]);
      assert r.indices[..|m.indices|] == m.indices;
      forall k | 0 <= k < |toks|
        ensures toks[k] in r.hashindices && r.indices[|u.indices| + k] == r.hashindices[toks[k]]
      {
        if k < |toks| - 1 {
          assert toks[k] == init[k];
          assert r.indices[|u.indices| + k] == m.indices[|u.indices| + k];
        }
      }
    }
  }

  /**
   * Vertex numbers grow by one per new token and the position and normal
   * arrays by three: the number of entries added matches the numbers given out.
   */
  lemma GrowthMatchesNumbers(u: Unpacked, src: Sources, toks: seq<string>)
    requires Consistent(u)
    ensures var r := UnpackTokens(u, src, toks);
      && |r.verts| - |u.verts| == 3 * (r.index - u.index)
      && |r.norms| - |u.norms| == 3 * (r.index - u.index)
  {
    UnpackKeepsConsistent(u, src, toks);
  }

  // ------------------------------------------------------------------ faces

  /**
   * The order in which the face loop visits the tokens of an n-token face:
   * the j/quad trick revisits token 2 and appends token 0 after token 3,
   * so four tokens give the triangles a,b,c and c,d,a; tokens past the
   * fourth are visited once each, after that.
   */
  function FaceOrder(n: nat): (order: seq<nat>)
    ensures n <= 3 ==> |order| == n
    ensures n >= 4 ==> |order| == n + 2
    ensures forall k :: 0 <= k < |order| ==> order[k] < n
  {
    if n <= 3 then seq(n, k => k)
    else [0, 1, 2, 2, 3, 0] + seq(n - 4, k => k + 4)
  }

  /** The face's tokens in visiting order. */
  function FaceTokens(elements: seq<string>): seq<string>
  {
    var order := FaceOrder(|elements|);
    seq(|order|, k requires 0 <= k < |order| => elements[order[k]])
  }

  /**
   * A face of up to three tokens is visited in order; a face of four or
   * more visits a,b,c,c,d,a and then the fifth token onwards.
   */
  lemma FaceTokensShape(elements: seq<string>)
    ensures |elements| <= 3 ==> FaceTokens(elements) == elements
    ensures |elements| >= 4 ==>
              FaceTokens(elements)
                == [elements[0], elements[1], elements[2], elements[2], elements[3], elements[0]] + elements[4..]
  {
    var toks := FaceTokens(elements);
    if |elements| >= 4 {
      assert toks[6..] == elements[4..];
      assert toks == toks[..6] + toks[6..];
    }
  }

  /** How many tokens the face loop has handled once its counter is j. */
  ghost function Emitted(j: nat, quad: bool): nat
  {
    if !quad then j else if j == 3 then 4 else j + 2
  }

  /** The k-th token visited, as a position in the face. */
  lemma FaceOrderAt(n: nat, k: nat)
    requires k < |FaceOrder(n)|
    ensures FaceOrder(n)[k]
              == if n <= 3 || k <= 2 then k else if k == 3 then 2 else if k == 4 then 3 else if k == 5 then 0 else k - 2
  {
  }

  /**
   * The token the face loop handles when its counter is j (before the reset
   * of j from 3 to 2) is the next one in visiting order, and after the
   * fourth token the first one follows.
   */
  lemma VisitedToken(elements: seq<string>, j: nat, quad: bool)
    requires j < |elements|
    requires quad ==> 3 <= j && |elements| >= 4
    requires !quad ==> j <= 3
    ensures var j1 := if j == 3 && !quad then 2 else j;
      var e := Emitted(j, quad);
      && e < |FaceTokens(elements)| && FaceTokens(elements)[e] == elements[j1]
      && (j == 3 && quad ==> e + 1 < |FaceTokens(elements)| && FaceTokens(elements)[e + 1] == elements[0])
  {
    var e := Emitted(j, quad);
    FaceOrderAt(|elements|, e);
    if j == 3 && quad {
      FaceOrderAt(|elements|, e + 1);
    }
  }

  /** Handling the next token in visiting order extends the prefix handled. */
  lemma UnpackNext(u: Unpacked, src: Sources, toks: seq<string>, n: nat, prev: Unpacked, tok: string)
    requires n < |toks| && toks[n] == tok
    requires prev == UnpackTokens(u, src, toks[..n])
    ensures UnpackTokens(u, src, toks[..n + 1]) == AddToken(prev, src, tok)
  {
    assert toks[..n + 1] == toks[..n] + [tok];
    UnpackOneMore(u, src, toks[..n], tok);
  }

  /**
   * The face loop of parse_into_mesh, with its loop counter reset from 3
   * to 2 to revisit the third token and the extra push of the first
   * token's number after the fourth.
   */
  method UnpackFace(u: Unpacked, src: Sources, elements: seq<string>) returns (r: Unpacked)
    ensures r == UnpackTokens(u, src, FaceTokens(elements))
  {
    ghost var toks := FaceTokens(elements);
    ghost var e := 0;
    r := u;
    var quad := false;
    var j := 0;
    while j < |elements|
      invariant 0 <= j <= |elements|
      invariant quad ==> 3 <= j && |elements| >= 4
      invariant !quad ==> j <= 3
      invariant e == Emitted(j, quad) && e <= |toks|
      invariant r == UnpackTokens(u, src, toks[..e])
      invariant e > 0 ==> elements[0] in r.hashindices
      decreases |elements| - j + (if quad then 0 else 1)
    {
      VisitedToken(elements, j, quad);
      if j == 3 && !quad {
        j := 2;
        quad := true;
      }
      UnpackNext(u, src, toks, e, r, elements[j]);
      AddTokenKeepsNumbers(r, src, elements[j]);
      r := AddToken(r, src, elements[j]);
      e := e + 1;
      if j == 3 && quad {
        UnpackNext(u, src, toks, e, r, elements[0]);
        AddKnownToken(r, src, elements[0]);
        r := r.(indices := r.indices + [r.hashindices[elements[0]]]);
        e := e + 1;
      }
      j := j + 1;
    }
    assert toks[..e] == toks;
  }

  /**
   * A three-token face pushes three indices and a four-token face the six
   * of a,b,c,c,d,a, each the number its token holds; every index pushed
   * names a vertex that exists.
   */
  lemma FaceIndices(u: Unpacked, src: Sources, elements: seq<string>)
    requires Consistent(u)
    ensures var r := UnpackTokens(u, src, FaceTokens(elements));
      && |r.indices| >= |u.indices|
      && var added := r.indices[|u.indices|..];
      && (forall e :: e in elements ==> e in r.hashindices)
      && (|elements| == 3 ==>
            added == [r.hashindices[elements[0]], r.hashindices[elements[1]], r.hashindices[elements[2]]])
      && (|elements| == 4 ==>
            added == [r.hashindices[elements[0]], r.hashindices[elements[1]], r.hashindices[elements[2]],
                      r.hashindices[elements[2]], r.hashindices[elements[3]], r.hashindices[elements[0]]])
      && (forall k :: 0 <= k < |added| ==> added[k] < r.index)
  {
    var toks := FaceTokens(elements);
    UnpackEmitsHashedNumbers(u, src, toks);
    UnpackKeepsConsistent(u, src, toks);
    FacePushes(elements, u.indices, UnpackTokens(u, src, toks));
  }

  /** Every token of a face is visited, so every token ends up hashed. */
  lemma FaceTokensHashed(elements: seq<string>, hashed: map<string, nat>)
    requires forall k :: 0 <= k < |FaceTokens(elements)| ==> FaceTokens(elements)[k] in hashed
    ensures forall e :: e in elements ==> e in hashed
  {
    var toks := FaceTokens(elements);
    FaceTokensShape(elements);
    forall e | e in elements ensures e in hashed {
      var i :| 0 <= i < |elements| && elements[i] == e;
      if |elements| <= 3 {
        assert toks[i] == e;
      } else if i < 4 {
        assert toks[if i == 3 then 4 else i] == e;
      } else {
        assert toks[i + 2] == e;
      }
    }
  }

  /** The face-level reading of what the token-level lemmas give. */
  lemma FacePushes(elements: seq<string>, before: seq<nat>, r: Unpacked)
    requires |r.indices| == |before| + |FaceTokens(elements)|
    requires forall k :: 0 <= k < |FaceTokens(elements)| ==>
               FaceTokens(elements)[k] in r.hashindices
               && r.indices[|before| + k] == r.hashindices[FaceTokens(elements)[k]]
    requires forall k :: 0 <= k < |r.indices| ==> r.indices[k] < r.index
    ensures var added := r.indices[|before|..];
      && (forall e :: e in elements ==> e in r.hashindices)
      && (|elements| == 3 ==>
            added == [r.hashindices[elements[0]], r.hashindices[elements[1]], r.hashindices[elements[2]]])
      && (|elements| == 4 ==>
            added == [r.hashindices[elements[0]], r.hashindices[elements[1]], r.hashindices[elements[2]],
                      r.hashindices[elements[2]], r.hashindices[elements[3]], r.hashindices[elements[0]]])
      && (forall k :: 0 <= k < |added| ==> added[k] < r.index)
  {
    var toks := FaceTokens(elements);
    FaceTokensHashed(elements, r.hashindices);
    if 3 <= |elements| <= 4 {
      FaceTokensShape(elements);
      var added := r.indices[|before|..];
      assert forall k :: 0 <= k < |toks| ==> added[k] == r.hashindices[toks[k]];
    }
  }

  // ------------------------------------------------------------- whole file

  /** The reader's state between lines. */
  datatype ParseState = ParseState(src: Sources, unpacked: Unpacked)

  const InitialState: ParseState := ParseState(Sources([], [], []), EmptyUnpacked)

  /** One line of the file, classified by /^v\s/, /^vn\s/, /^vt\s/, /^f\s/ in that order. */
  function StepLine(st: ParseState, rawLine: string): ParseState
  {
    var line := Trim(rawLine);
    var elements := SplitWs(line)[1..];
    if HasKeyword(line, "v") then st.(src := st.src.(verts := st.src.verts + elements))
    else if HasKeyword(line, "vn") then st.(src := st.src.(vertNormals := st.src.vertNormals + elements))
    else if HasKeyword(line, "vt") then st.(src := st.src.(textures := st.src.textures + elements))
    else if HasKeyword(line, "f") then st.(unpacked := UnpackTokens(st.unpacked, st.src, FaceTokens(elements)))
    else st
  }

  /** The state after the given lines. */
  function ParseLines(lines: seq<string>): ParseState
  {
    if lines == [] then InitialState
    else StepLine(ParseLines(lines[..|lines| - 1]), lines[|lines| - 1])
  }

  /** One line keeps the unpacked arrays consistent: only an f line touches them. */
  lemma StepLineConsistent(st: ParseState, rawLine: string)
    requires Consistent(st.unpacked)
    ensures Consistent(StepLine(st, rawLine).unpacked)
  {
    var line := Trim(rawLine);
    var elements := SplitWs(line)[1..];
    if !HasKeyword(line, "v") && !HasKeyword(line, "vn") && !HasKeyword(line, "vt") && HasKeyword(line, "f") {
      UnpackKeepsConsistent(st.unpacked, st.src, FaceTokens(elements));
    }
  }

  /** Whatever the file says, the unpacked arrays stay a consistent mesh. */
  lemma {:induction false} ParseLinesConsistent(lines: seq<string>)
    ensures Consistent(ParseLines(lines).unpacked)
  {
    if lines != [] {
      ParseLinesConsistent(lines[..|lines| - 1]);
      StepLineConsistent(ParseLines(lines[..|lines| - 1]), lines[|lines| - 1]);
    }
  }

  /** A three-number position or normal record. */
  datatype Triple = Triple(a: Num, b: Num, c: Num)

  /** A texture coordinate pair; None stands for a read past the end of the array (undefined). */
  datatype Pair = Pair(u: Option<Num>, v: Option<Num>)

  function At(s: seq<Num>, k: nat): Option<Num>
  {
    if k < |s| then Some(s[k]) else None
  }

  /** s[k], or NaN past the end of s. */
  function Entry(s: seq<Num>, k: nat): Num
  {
    if k < |s| then s[k] else NaN
  }

  /** The first n three-entry records of s. */
  function Triples(s: seq<Num>, n: nat): (r: seq<Triple>)
    ensures |r| == n
    ensures forall j :: 0 <= j < n ==> r[j] == Triple(Entry(s, 3 * j), Entry(s, 3 * j + 1), Entry(s, 3 * j + 2))
  {
    if n == 0 then [] else Triples(s, n - 1) + [Triple(Entry(s, 3 * n - 3), Entry(s, 3 * n - 2), Entry(s, 3 * n - 1))]
  }

  /** The first n coordinate pairs of s, undefined past its end. */
  function Pairs(s: seq<Num>, n: nat): (r: seq<Pair>)
    ensures |r| == n
    ensures forall j :: 0 <= j < n ==> r[j] == Pair(At(s, 2 * j), At(s, 2 * j + 1))
  {
    if n == 0 then [] else Pairs(s, n - 1) + [Pair(At(s, 2 * n - 2), At(s, 2 * n - 1))]
  }

  /** The unpacked state that the lines of a file's text produce. */
  ghost function FileMesh(data: string): Unpacked
  {
    ParseLines(Split(data, '\n')).unpacked
  }

  /**
   * The shape's index buffer only names vertices the shape has: after
   * reading any text, every index is below the number of positions, and
   * there is one normal per position.
   */
  lemma MeshIndicesInRange(data: string)
    ensures var u := FileMesh(data);
      && |u.verts| == 3 * u.index == |u.norms|
      && forall k :: 0 <= k < |u.indices| ==> u.indices[k] < u.index
  {
    var lines := Split(data, '\n');
    ParseLinesConsistent(lines);
  }

  /** The state after one more line. */
  lemma ParseOneMore(lines: seq<string>, i: nat)
    requires i < |lines|
    ensures ParseLines(lines[..i + 1]) == StepLine(ParseLines(lines[..i]), lines[i])
  {
    assert lines[..i + 1][..i] == lines[..i];
  }

  /**
   * The line loop of parse_into_mesh: each trimmed line is split into its
   * fields and dispatched on its keyword.
   */
  method ReadLines(lines: seq<string>) returns (st: ParseState)
    ensures st == ParseLines(lines)
    ensures |st.unpacked.verts| == 3 * st.unpacked.index == |st.unpacked.norms|
    ensures forall k :: 0 <= k < |st.unpacked.indices| ==> st.unpacked.indices[k] < st.unpacked.index
  {
    var verts: seq<string> := [];
    var vertNormals: seq<string> := [];
    var textures: seq<string> := [];
    var unpacked := EmptyUnpacked;
    var i := 0;
    while i < |lines|
      invariant 0 <= i <= |lines|
      invariant ParseState(Sources(verts, vertNormals, textures), unpacked) == ParseLines(lines[..i])
    {
      ParseOneMore(lines, i);
      var line := Trim(lines[i]);
      var elements := SplitWs(line)[1..];
      if HasKeyword(line, "v") {
        verts := verts + elements;
      } else if HasKeyword(line, "vn") {
        vertNormals := vertNormals + elements;
      } else if HasKeyword(line, "vt") {
        textures := textures + elements;
      } else if HasKeyword(line, "f") {
        unpacked := UnpackFace(unpacked, Sources(verts, vertNormals, textures), elements);
      }
      i := i + 1;
    }
    assert lines[..|lines|] == lines;
    st := ParseState(Sources(verts, vertNormals, textures), unpacked);
    ParseLinesConsistent(lines);
  }

  class ShapeFromFile {
    var positions: seq<Triple>
    var normals: seq<Triple>
    var textureCoords: seq<Pair>
    var indices: seq<nat>
    var ready: bool

    /** The shape before its file has loaded: empty arrays, not ready. */
    constructor ()
      ensures positions == [] && normals == [] && textureCoords == [] && indices == [] && !ready
    {
      positions, normals, textureCoords, indices, ready := [], [], [], [], false;
    }

    /**
     * The shape holds the mesh of u after the arrays p0, n0 and t0: one
     * position, normal and texture coordinate per vertex number appended,
     * u's indices as the index buffer, and the shape ready to draw.
     */
    ghost predicate Holds(u: Unpacked, p0: seq<Triple>, n0: seq<Triple>, t0: seq<Pair>)
      reads this
    {
      && 3 * u.index == |u.verts| == |u.norms|
      && positions == p0 + Triples(u.verts, u.index)
      && normals == n0 + Triples(u.norms, u.index)
      && textureCoords == t0 + Pairs(u.textures, u.index)
      && indices == u.indices
      && (forall k :: 0 <= k < |indices| ==> indices[k] < |positions| - |p0|)
      && ready
    }

    /**
     * The copy loop at the end of parse_into_mesh: one position, normal and
     * texture coordinate appended per vertex number, then the index buffer
     * taken over.
     */
    method Load(u: Unpacked)
      requires |u.verts| == 3 * u.index == |u.norms|
      requires forall k :: 0 <= k < |u.indices| ==> u.indices[k] < u.index
      modifies this
      ensures Holds(u, old(positions), old(normals), old(textureCoords))
    {
      var j := 0;
      while j < |u.verts| / 3
        invariant 0 <= j <= u.index
        invariant positions == old(positions) + Triples(u.verts, j)
        invariant normals == old(normals) + Triples(u.norms, j)
        invariant textureCoords == old(textureCoords) + Pairs(u.textures, j)
      {
        positions := positions + [Triple(u.verts[3 * j], u.verts[3 * j + 1], u.verts[3 * j + 2])];
        normals := normals + [Triple(u.norms[3 * j], u.norms[3 * j + 1], u.norms[3 * j + 2])];
        textureCoords := textureCoords + [Pair(At(u.textures, 2 * j), At(u.textures, 2 * j + 1))];
        j := j + 1;
      }
      indices := u.indices;
      ready := true;
    }

    /**
     * parse_into_mesh(data): read the file line by line, then load the
     * mesh the lines produce. The ghost result names that unpacked state.
     */
    method ParseIntoMesh(data: string) returns (ghost u: Unpacked)
      modifies this
      ensures Holds(u, old(positions), old(normals), old(textureCoords))
      ensures u == FileMesh(data)
    {
      var st := ReadLines(Split(data, '\n'));
      Load(st.unpacked);
      u := st.unpacked;
    }
  }
}
