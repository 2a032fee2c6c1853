/** The director field `g` of a legal-entity record, e.g.
    "Директор: Иванов Иван Иванович, Президент: Петров Петр Петрович",
    and its parse into numbered (position, fio) pairs by `_dirs_dict`. */
module FnsDirectors {
  import opened PyStr

  datatype Director = Director(position: string, fio: string)

  /** Why `_dirs_dict` raises: an interior piece (between two colons) has
      no comma, so `str.index(',')` raises `ValueError`; or the token list
      has odd length, so the pairing loop raises `IndexError`. */
  datatype DirError = MissingComma(piece: nat) | OddTokenCount

  datatype Result<+T> = Ok(value: T) | Err(error: DirError)

  /** The text of a piece before its first comma. */
  function BeforeComma(piece: string): (r: string)
    requires ',' in piece
    ensures ',' !in r
  {
    piece[..IndexOf(piece, ',').value]
  }

  /** The text of a piece after its first comma. */
  function AfterComma(piece: string): (r: string)
    requires ',' in piece
  {
    piece[IndexOf(piece, ',').value + 1..]
  }

  /** The tokens that piece `i` adds to `result_list`: the first and the
      last piece are kept whole, an interior piece is cut at its first
      comma; each token is stripped. */
  function PieceTokens(pieces: seq<string>, i: nat): (r: Result<seq<string>>)
    requires i < |pieces|
    ensures r.Err? <==> 0 < i < |pieces| - 1 && ',' !in pieces[i]
    ensures r.Err? ==> r.error == MissingComma(i)
    ensures r.Ok? ==> |r.value| == (if i == 0 || i == |pieces| - 1 then 1 else 2)
  {
    if i == 0 || i == |pieces| - 1 then Ok([Strip(pieces[i])])
    else if ',' !in pieces[i] then Err(MissingComma(i))
    else Ok([Strip(BeforeComma(pieces[i])), Strip(AfterComma(pieces[i]))])
  }

  /** `result_list` after the first `k` pieces, or the error of the first
      piece that raises. */
  function Tokens(pieces: seq<string>, k: nat): (r: Result<seq<string>>)
    requires k <= |pieces|
  {
    if k == 0 then Ok([])
    else
      var done := Tokens(pieces, k - 1);
      var next := PieceTokens(pieces, k - 1);
      if done.Err? then done
      else if next.Err? then next
      else Ok(done.value + next.value)
  }

  /** The pairing loop of `_dirs_dict`: token 2j is the position and
      token 2j+1 the fio of director j. */
  function Pairs(tokens: seq<string>): (r: Result<map<nat, Director>>)
    ensures r.Ok? <==> |tokens| % 2 == 0
    ensures r.Ok? ==> forall j: nat :: j in r.value <==> j < |tokens| / 2
  {
    if |tokens| % 2 == 1 then Err(OddTokenCount)
    else Ok(map j: nat | j < |tokens| / 2 :: Director(tokens[2 * j], tokens[2 * j + 1]))
  }

  /** `_dirs_dict` once the field is split at its colons. */
  function DirectorsOfPieces(pieces: seq<string>): (r: Result<map<nat, Director>>)
  {
    match Tokens(pieces, |pieces|)
    case Err(e) => Err(e)
    case Ok(t) => Pairs(t)
  }

  /** `_dirs_dict(g)`: the directors numbered from 0, or the error it raises. */
  function ParseDirectors(g: string): (r: Result<map<nat, Director>>)
  {
    DirectorsOfPieces(SplitAt(g, ':'))
  }

  /** `dirs_num` as `_dirs_dict` sets it once both loops finish: half
      the number of tokens. */
  function DirectorCount(g: string): (n: nat)
  {
    match Tokens(SplitAt(g, ':'), |SplitAt(g, ':')|)
    case Ok(t) => |t| / 2
    case Err(_) => 0
  }

  /** Director j read straight off the pieces: its position is the first
      piece, or the text after the comma of piece j; its fio is the last
      piece, or the text before the comma of piece j + 1. */
  function DirectorAt(pieces: seq<string>, j: nat): (d: Director)
    requires j + 1 < |pieces| && InteriorHaveCommas(pieces)
  {
    Director(
      if j == 0 then Strip(pieces[0]) else Strip(AfterComma(pieces[j])),
      if j + 2 == |pieces| then Strip(pieces[j + 1]) else Strip(BeforeComma(pieces[j + 1])))
  }

  /** Every interior piece (neither the first nor the last) has a comma. */
  predicate InteriorHaveCommas(pieces: seq<string>)
  {
    forall i :: 0 < i < |pieces| - 1 ==> ',' in pieces[i]
  }

  // ---------------------------------------------------------------- methods

  /** The first loop of `_dirs_dict`: builds `result_list` from the
      colon-separated pieces of the field. */
  method DirectorTokens(directorString: string) returns (r: Result<seq<string>>)
    ensures r == Tokens(SplitAt(directorString, ':'), |SplitAt(directorString, ':')|)
  {
    var tempList := SplitAt(directorString, ':');
    var resultList: seq<string> := [];
    for i := 0 to |tempList|
      invariant Tokens(tempList, i) == Ok(resultList)
    {
      if i == 0 || i == |tempList| - 1 {
        assert PieceTokens(tempList, i) == Ok([Strip(tempList[i])]);
        resultList := resultList + [Strip(tempList[i])];
      } else {
        var n := IndexOf(tempList[i], ',');
        if n.None? {
          assert Tokens(tempList, i + 1) == Err(MissingComma(i));
          TokensKeepFirstError(tempList, i + 1, |tempList|);
          return Err(MissingComma(i));
        }
        assert tempList[i][..n.value] == BeforeComma(tempList[i]);
        assert tempList[i][n.value + 1..] == AfterComma(tempList[i]);
        assert PieceTokens(tempList, i) == Ok([Strip(tempList[i][..n.value]), Strip(tempList[i][n.value + 1..])]);
        ghost var before := resultList;
        resultList := resultList + [Strip(tempList[i][..n.value])];
        resultList := resultList + [Strip(tempList[i][n.value + 1..])];
        assert resultList == before + [Strip(tempList[i][..n.value]), Strip(tempList[i][n.value + 1..])];
      }
    }
    r := Ok(resultList);
  }

  /** The second loop of `_dirs_dict`: pairs the tokens two by two into
      numbered directors. */
  method PairDirectors(resultList: seq<string>) returns (r: Result<map<nat, Director>>)
    ensures r == Pairs(resultList)
  {
    var dirsDict: map<nat, Director> := map[];
    var i := 0;
    while i < |resultList|
      invariant i % 2 == 0 && i <= |resultList|
      invariant dirsDict == map j: nat | j < i / 2 :: Director(resultList[2 * j], resultList[2 * j + 1])
    {
      if i + 1 >= |resultList| {
        return Err(OddTokenCount);
      }
      dirsDict := dirsDict[i / 2 := Director(resultList[i], resultList[i + 1])];
      i := i + 2;
    }
    r := Ok(dirsDict);
  }

  // ---------------------------------------------------------------- lemmas

  /** Cutting a piece at its first comma loses only that comma. */
  lemma CutAtFirstComma(piece: string)
    requires ',' in piece
    ensures BeforeComma(piece) + [','] + AfterComma(piece) == piece
  {
    var n := IndexOf(piece, ',').value;
    assert piece == piece[..n] + [','] + piece[n + 1..];
  }

  /** Once a piece raises, the later pieces are never reached. */
  lemma {:induction false} TokensKeepFirstError(pieces: seq<string>, i: nat, k: nat)
    requires i <= k <= |pieces|
    requires Tokens(pieces, i).Err?
    ensures Tokens(pieces, k) == Tokens(pieces, i)
    decreases k - i
  {
    if i < k {
      TokensKeepFirstError(pieces, i + 1, k);
    }
  }

  /** `result_list` is built from the first k pieces exactly when every
      interior piece among them has a comma. */
  lemma {:induction false} TokensOk(pieces: seq<string>, k: nat)
    requires k <= |pieces|
    ensures Tokens(pieces, k).Ok? <==> forall i :: 0 < i < k && i < |pieces| - 1 ==> ',' in pieces[i]
    decreases k
  {
    if k > 0 {
      TokensOk(pieces, k - 1);
    }
  }

  /** Otherwise the error names the first interior piece without a comma. */
  lemma {:induction false} TokensFirstError(pieces: seq<string>, k: nat, i: nat)
    requires k <= |pieces|
    requires 0 < i < k && i < |pieces| - 1 && ',' !in pieces[i]
    requires forall i' :: 0 < i' < i ==> ',' in pieces[i']
    ensures Tokens(pieces, k) == Err(MissingComma(i))
  {
    TokensOk(pieces, i);
    assert Tokens(pieces, i + 1) == Err(MissingComma(i));
    TokensKeepFirstError(pieces, i + 1, k);
  }

  /** After k >= 1 pieces `result_list` holds 2k - 1 tokens, or 2k - 2
      once the last piece of several is in. */
  lemma {:induction false} TokensLength(pieces: seq<string>, k: nat)
    requires 1 <= k <= |pieces|
    requires Tokens(pieces, k).Ok?
    ensures |Tokens(pieces, k).value| == (if k == |pieces| && k >= 2 then 2 * k - 2 else 2 * k - 1)
    decreases k
  {
    if k > 1 {
      TokensLength(pieces, k - 1);
    }
  }

  /** The tokens of piece i sit at positions 2i - 1 and 2i (the first
      piece's one token at position 0). */
  lemma {:induction false} TokensAt(pieces: seq<string>, k: nat, i: nat)
    requires i < k <= |pieces|
    requires Tokens(pieces, k).Ok?
    ensures PieceTokens(pieces, i).Ok?
    ensures var t := Tokens(pieces, k).value;
            var u := PieceTokens(pieces, i).value;
            if i == 0 then t[0] == u[0]
            else 2 * i - 1 + |u| <= |t| && t[2 * i - 1] == u[0] && (|u| == 2 ==> t[2 * i] == u[1])
    decreases k
  {
    var t := Tokens(pieces, k).value;
    if i < k - 1 {
      TokensAt(pieces, k - 1, i);
      TokensLength(pieces, k - 1);
    } else if i > 0 {
      TokensLength(pieces, k - 1);
    }
  }

  /** The pieces give directors exactly when there are at least two and
      every interior one has a comma. */
  lemma DirectorsOfPiecesOk(pieces: seq<string>)
    requires pieces != []
    ensures DirectorsOfPieces(pieces).Ok? <==> |pieces| >= 2 && InteriorHaveCommas(pieces)
  {
    TokensOk(pieces, |pieces|);
    if Tokens(pieces, |pieces|).Ok? && |pieces| >= 1 {
      TokensLength(pieces, |pieces|);
    }
  }

  /** Director j of the pairing loop is tokens 2j and 2j + 1. */
  lemma PairsAt(tokens: seq<string>, j: nat)
    requires |tokens| % 2 == 0 && j < |tokens| / 2
    ensures Pairs(tokens).Ok? && j in Pairs(tokens).value
    ensures Pairs(tokens).value[j] == Director(tokens[2 * j], tokens[2 * j + 1])
  {
  }

  /** Token 2j of a successful parse is the position of director j. */
  lemma PositionToken(pieces: seq<string>, j: nat)
    requires Tokens(pieces, |pieces|).Ok? && j + 1 < |pieces|
    ensures InteriorHaveCommas(pieces)
    ensures 2 * j < |Tokens(pieces, |pieces|).value|
    ensures Tokens(pieces, |pieces|).value[2 * j] == DirectorAt(pieces, j).position
  {
    TokensOk(pieces, |pieces|);
    TokensLength(pieces, |pieces|);
    TokensAt(pieces, |pieces|, j);
  }

  /** Token 2j + 1 of a successful parse is the fio of director j. */
  lemma FioToken(pieces: seq<string>, j: nat)
    requires Tokens(pieces, |pieces|).Ok? && j + 1 < |pieces|
    ensures InteriorHaveCommas(pieces)
    ensures 2 * j + 1 < |Tokens(pieces, |pieces|).value|
    ensures Tokens(pieces, |pieces|).value[2 * j + 1] == DirectorAt(pieces, j).fio
  {
    TokensOk(pieces, |pieces|);
    TokensLength(pieces, |pieces|);
    TokensAt(pieces, |pieces|, j + 1);
  }

  /** Director j of a successful parse, read straight off the pieces. */
  lemma DirectorsOfPiecesAt(pieces: seq<string>, j: nat)
    requires DirectorsOfPieces(pieces).Ok? && j + 1 < |pieces|
    ensures InteriorHaveCommas(pieces)
    ensures j in DirectorsOfPieces(pieces).value
    ensures DirectorsOfPieces(pieces).value[j] == DirectorAt(pieces, j)
  {
    var t := Tokens(pieces, |pieces|).value;
    TokensLength(pieces, |pieces|);
    PositionToken(pieces, j);
    FioToken(pieces, j);
    PairsAt(t, j);
  }

  /** `_dirs_dict` on a field with n colons succeeds exactly when n >= 1
      and every interior piece has a comma. */
  lemma ParseDirectorsOk(g: string)
    ensures ParseDirectors(g).Ok? <==> Count(g, ':') >= 1 && InteriorHaveCommas(SplitAt(g, ':'))
  {
    DirectorsOfPiecesOk(SplitAt(g, ':'));
  }

  /** `_dirs_dict` on a field with n colons, every interior piece having a
      comma: `result_list` has 2n tokens, so there are n directors
      numbered 0..n-1 and `dirs_num` is n; director j is
      DirectorAt(pieces, j), so the first position is the stripped first
      piece and the last fio the stripped last piece. */
  lemma ParseDirectorsShape(g: string)
    requires ParseDirectors(g).Ok?
    ensures var pieces := SplitAt(g, ':');
            var n := Count(g, ':');
            var dirs := ParseDirectors(g).value;
            && n >= 1 && InteriorHaveCommas(pieces)
            && |Tokens(pieces, |pieces|).value| == 2 * n
            && DirectorCount(g) == n
            && (forall j: nat :: j in dirs <==> j < n)
            && (forall j: nat :: j < n ==> dirs[j] == DirectorAt(pieces, j))
            && dirs[0].position == Strip(pieces[0])
            && dirs[n - 1].fio == Strip(pieces[n])
  {
    var pieces := SplitAt(g, ':');
    var n := Count(g, ':');
    DirectorsOfPiecesOk(pieces);
    TokensLength(pieces, |pieces|);
    forall j: nat | j < n
      ensures j in ParseDirectors(g).value && ParseDirectors(g).value[j] == DirectorAt(pieces, j)
    {
      DirectorsOfPiecesAt(pieces, j);
    }
  }

  /** `_dirs_dict` raises `ValueError` on the first interior piece
      without a comma. */
  lemma ParseDirectorsMissingComma(g: string, i: nat)
    requires var pieces := SplitAt(g, ':');
             && 0 < i < |pieces| - 1 && ',' !in pieces[i]
             && forall i' :: 0 < i' < i ==> ',' in pieces[i']
    ensures ParseDirectors(g) == Err(MissingComma(i))
  {
    var pieces := SplitAt(g, ':');
    TokensFirstError(pieces, |pieces|, i);
  }

  /** A field without a colon is one piece and one token, which cannot
      be paired: the pairing loop raises `IndexError`. */
  lemma ParseDirectorsWithoutColon(g: string)
    requires Count(g, ':') == 0
    ensures ParseDirectors(g) == Err(OddTokenCount)
  {
    SplitAtWithoutSep(g, ':');
    assert Tokens([g], 0) == Ok([]);
    assert PieceTokens([g], 0) == Ok([Strip(g)]);
    assert Tokens([g], 1) == Ok([] + [Strip(g)]);
  }
}
