/** The `FNS` object of fns.py: its fields as `_reset_variables` lays them
    out, the reading of one search-result row into those fields (`info`),
    the summary dictionary (`_write_dict`) and the director parse that
    also sets `dirs_num` (`_dirs_dict`). */
module Fns {
  import opened PyStr
  import opened FnsFormats
  import opened FnsDirectors
  import opened FnsRecords

  /** A value of the summary dictionary `dict`. */
  datatype Value =
    | Str(s: string)
    | Int(n: int)
    | Bool(b: bool)
    | Dirs(dirs: map<nat, Director>)

  /** Why `info` raises: a row without the key it indexes ('k' or 't'),
      or a director field `_dirs_dict` cannot parse. */
  datatype InfoError = MissingKey(key: string) | BadDirectors(error: DirError)

  /** The attributes `info` reads from the chosen row (`type` to
      `dirs_num` in `_reset_variables`). */
  datatype Card = Card(
    orgType: string,
    titleLong: string,
    titleShort: string,
    position: string,
    fio: string,
    fioF: string,
    fioI: string,
    fioO: string,
    address: string,
    inn: string,
    ogrn: string,
    kpp: string,
    regDate: string,
    endDate: string,
    notValidDate: string,
    docToken: string,
    dirsRaw: string,
    dirs: map<nat, Director>,
    dirsNum: nat)

  /** Every attribute of an `FNS` object, as one value. `response` is
      `None` while `_response` still holds its reset value ''. */
  datatype Fields = Fields(
    card: Card,
    dict: map<string, Value>,
    isOneRecord: bool,
    isDocLoaded: bool,
    docPdf: seq<bv8>,
    isValidOrg: Option<bool>,
    responseRaw: seq<Record>,
    response: Option<Record>,
    responseNum: nat,
    responseAct: seq<Record>,
    responseActNum: nat)

  /** What `info` leaves behind: the fields, and the exception it raised
      if it did not finish. */
  datatype InfoOutcome = InfoOutcome(state: Fields, raised: Option<InfoError>)

  /** The card as `_reset_variables` sets it. */
  function EmptyCard(): (c: Card)
  {
    Card("", "", "", "", "", "", "", "", "", "", "", "", "", "", "", "", "", map[], 0)
  }

  /** The fields as `_reset_variables` sets them. */
  function ResetFields(): (f: Fields)
  {
    Fields(EmptyCard(), map[], false, false, [], None, [], None, 0, [], 0)
  }

  /** The fields `info` fills in before it reads a row, put back to their
      reset values: every other field of `f` is still at its reset value. */
  predicate ResetApartFromSearch(f: Fields)
  {
    f.(responseRaw := [], response := None, responseNum := 0, responseAct := [],
       responseActNum := 0, isOneRecord := false) == ResetFields()
  }

  /** The type code `k` of a row as `info` names it. */
  function OrgType(k: string): (t: string)
  {
    if k == "ul" then "ul"
    else if k == "fl" then "ip"
    else if k == "sprav-fl" then "fl"
    else "unknown"
  }

  /** `dict` after `_write_dict` has updated `d` from the attributes in
      `f`: 'dirs' is written only when there are parsed directors,
      'is_valid_org' only once it is known, and the document token not
      at all. */
  function Written(d: map<string, Value>, f: Fields): (w: map<string, Value>)
  {
    var c := f.card;
    var named := d["type" := Str(c.orgType)]["title_long" := Str(c.titleLong)]
                  ["title_short" := Str(c.titleShort)]["position" := Str(c.position)]
                  ["fio" := Str(c.fio)]["address" := Str(c.address)]["inn" := Str(c.inn)]
                  ["ogrn" := Str(c.ogrn)]["kpp" := Str(c.kpp)]["reg_date" := Str(c.regDate)]
                  ["end_date" := Str(c.endDate)]["not_valid_date" := Str(c.notValidDate)];
    var withDirs := if c.dirs != map[] then named["dirs" := Dirs(c.dirs)] else named;
    var counted := withDirs["dirs_raw" := Str(c.dirsRaw)]["dirs_num" := Int(c.dirsNum)]
                     ["is_doc_loaded" := Bool(f.isDocLoaded)];
    var checked := if f.isValidOrg.Some? then counted["is_valid_org" := Bool(f.isValidOrg.value)]
                   else counted;
    checked["response_act_num" := Int(f.responseActNum)]
  }

  /** The keys `_write_dict` always writes. */
  const AlwaysWritten: set<string> := {
    "type", "title_long", "title_short", "position", "fio", "address", "inn",
    "ogrn", "kpp", "reg_date", "end_date", "not_valid_date", "dirs_raw",
    "dirs_num", "is_doc_loaded", "response_act_num"}

  /** `info` up to the choice of row: the fields are reset, the search
      result and its active rows are stored, and the row to read is
      chosen. */
  function Selected(records: seq<Record>, selectOne: bool): (f: Fields)
  {
    var act := Acting(records);
    ResetFields().(responseRaw := records, responseNum := |records|,
                   responseAct := act, responseActNum := |act|,
                   response := Chosen(records, selectOne),
                   isOneRecord := |records| == 1)
  }

  /** `info` once the row is chosen: it returns when there is none or it
      is empty, and reads it otherwise. */
  function ReadSelected(f: Fields): (o: InfoOutcome)
  {
    match f.response
    case None => InfoOutcome(f, None)
    case Some(rec) => if rec == map[] then InfoOutcome(f, None) else ReadRow(f, rec)
  }

  /** `info(inn, selecte_one)` given the rows the search returned. */
  function InfoSpec(records: seq<Record>, selectOne: bool): (o: InfoOutcome)
  {
    ReadSelected(Selected(records, selectOne))
  }

  /** The selection `info` evidently intends: the register's "nothing
      found" answer, which `_acting_records` already recognises, leaves
      no row to read and no single record, as an empty result does. */
  function IntendedSelected(records: seq<Record>, selectOne: bool): (f: Fields)
  {
    var f := Selected(records, selectOne);
    if IsNothingFound(records) then f.(response := None, isOneRecord := false) else f
  }

  /** `info` with the intended selection. */
  function IntendedInfoSpec(records: seq<Record>, selectOne: bool): (o: InfoOutcome)
  {
    ReadSelected(IntendedSelected(records, selectOne))
  }

  /** `info` from the reading of the type code on. */
  function ReadRow(f: Fields, rec: Record): (r: InfoOutcome)
    ensures r.state == f.(card := r.state.card, dict := r.state.dict)
  {
    if "k" !in rec then InfoOutcome(f, Some(MissingKey("k")))
    else
      var typed := f.card.(orgType := OrgType(rec["k"]));
      if "t" !in rec then InfoOutcome(f.(card := typed), Some(MissingKey("t")))
      else
        var tokened := typed.(docToken := rec["t"]);
        if tokened.orgType == "fl" then InfoOutcome(f.(card := tokened), None)
        else
          var copied := Copied(tokened, rec);
          if rec["k"] == "ul" then
            match Leadership(copied, rec)
            case Err(e) => InfoOutcome(f.(card := copied.(dirsRaw := rec["g"])), Some(BadDirectors(e)))
            case Ok(led) => InfoOutcome(Finished(f.(card := led)), None)
          else
            var named := if "n" in rec then copied.(fio := rec["n"]) else copied;
            InfoOutcome(Finished(f.(card := named)), None)
  }

  /** The attributes `info` copies from the row, '' where a key is absent. */
  function Copied(c: Card, rec: Record): (r: Card)
  {
    c.(titleLong := Get(rec, "n"), titleShort := Get(rec, "c"),
       address := Get(rec, "a"), inn := Get(rec, "i"), ogrn := Get(rec, "o"),
       kpp := Get(rec, "p"), regDate := Get(rec, "r"), endDate := Get(rec, "e"),
       notValidDate := Get(rec, "v"))
  }

  /** The position and fio of an organisation, read from its director
      field 'g', or the error `_dirs_dict` raises (the card then holds
      'g' as `dirs_raw`). */
  function Leadership(c: Card, rec: Record): (r: Result<Card>)
    ensures r.Err? ==> "g" in rec
    ensures r.Ok? ==> r.value.(position := c.position, fio := c.fio, dirsRaw := c.dirsRaw,
                                dirs := c.dirs, dirsNum := c.dirsNum) == c
  {
    if "g" !in rec then Ok(c.(position := ""))
    else
      var g := rec["g"];
      var raw := c.(dirsRaw := g);
      if ',' in g && Count(g, ':') > 1 then
        match ParseDirectors(g)
        case Err(e) => Err(e)
        case Ok(dirs) =>
          ParseDirectorsShape(g);
          Ok(raw.(dirs := dirs, dirsNum := DirectorCount(g),
                  fio := dirs[0].fio, position := dirs[0].position))
      else
        var pieces := SplitAt(g, ':');
        Ok(raw.(position := Strip(pieces[0]), dirsNum := 1,
                fio := if |pieces| >= 2 then Strip(pieces[1]) else g))
  }

  /** The last steps of `info`: the name is split and `_write_dict` runs. */
  function Finished(f: Fields): (r: Fields)
    ensures r == f.(card := r.card, dict := r.dict)
    ensures r.card == f.card.(fioF := r.card.fioF, fioI := r.card.fioI, fioO := r.card.fioO)
  {
    var parts := FioSplit(f.card.fio);
    var split := f.(card := f.card.(fioF := parts.surname, fioI := parts.givenName,
                                    fioO := parts.patronymic));
    split.(dict := Written(split.dict, split))
  }

  class FNS {
    /** `type` to `dirs_num`. */
    var card: Card
    var dict: map<string, Value>
    var isOneRecord: bool
    var isDocLoaded: bool
    var docPdf: seq<bv8>
    var isValidOrg: Option<bool>
    var responseRaw: seq<Record>
    var response: Option<Record>
    var responseNum: nat
    var responseAct: seq<Record>
    var responseActNum: nat

    /** The object's attributes as one value. */
    function Snapshot(): (f: Fields)
      reads this
    {
      Fields(card, dict, isOneRecord, isDocLoaded, docPdf, isValidOrg,
             responseRaw, response, responseNum, responseAct, responseActNum)
    }

    /** `FNS()` without a query: the attributes start at their reset values. */
    constructor ()
      ensures Snapshot() == ResetFields()
    {
      new;
      ResetVariables();
    }

    /** `_reset_variables`. */
    method ResetVariables()
      modifies this
      ensures Snapshot() == ResetFields()
    {
      card := Card("", "", "", "", "", "", "", "", "", "", "", "", "", "", "", "", "", map[], 0);
      dict := map[];
      isOneRecord := false;
      isDocLoaded := false;
      docPdf := [];
      isValidOrg := None;
      responseRaw := [];
      response := None;
      responseNum := 0;
      responseAct := [];
      responseActNum := 0;
    }

    /** `_write_dict`: updates `dict` with the current attributes and
        touches nothing else. */
    method WriteDict()
      modifies this`dict
      ensures dict == Written(old(dict), old(Snapshot()))
    {
      var d := dict;
      d := d["type" := Str(card.orgType)]["title_long" := Str(card.titleLong)];
      d := d["title_short" := Str(card.titleShort)]["position" := Str(card.position)];
      d := d["fio" := Str(card.fio)]["address" := Str(card.address)]["inn" := Str(card.inn)];
      d := d["ogrn" := Str(card.ogrn)]["kpp" := Str(card.kpp)]["reg_date" := Str(card.regDate)];
      d := d["end_date" := Str(card.endDate)]["not_valid_date" := Str(card.notValidDate)];
      if card.dirs != map[] {
        d := d["dirs" := Dirs(card.dirs)];
      }
      d := d["dirs_raw" := Str(card.dirsRaw)]["dirs_num" := Int(card.dirsNum)];
      d := d["is_doc_loaded" := Bool(isDocLoaded)];
      if isValidOrg.Some? {
        d := d["is_valid_org" := Bool(isValidOrg.value)];
      }
      d := d["response_act_num" := Int(responseActNum)];
      dict := d;
    }

    /** `_dirs_dict`: the numbered directors of a director field; on
        success `dirs_num` becomes their count, on failure it is left as
        it was. */
    method DirsDict(directorString: string) returns (r: Result<map<nat, Director>>)
      modifies this`card
      ensures r == ParseDirectors(directorString)
      ensures card == if r.Ok? then old(card).(dirsNum := DirectorCount(directorString)) else old(card)
    {
      var tokens := DirectorTokens(directorString);
      if tokens.Err? {
        return Err(tokens.error);
      }
      r := PairDirectors(tokens.value);
      if r.Ok? {
        card := card.(dirsNum := |tokens.value| / 2);
      }
    }

    /** `info` given the rows the search returned (`response_raw`). */
    method Info(records: seq<Record>, selectOne: bool) returns (raised: Option<InfoError>)
      modifies this
      ensures Snapshot() == InfoSpec(records, selectOne).state
      ensures raised == InfoSpec(records, selectOne).raised
    {
      ResetVariables();
      responseRaw := records;
      responseNum := |records|;
      responseAct := ActingRecords(responseRaw);
      responseActNum := |responseAct|;
      if responseNum > 1 {
        if selectOne {
          if responseActNum >= 1 {
            response := Some(responseAct[0]);
          } else {
            response := Some(responseRaw[0]);
          }
        } else {
          return None;
        }
      } else if responseNum == 1 {
        response := Some(responseRaw[0]);
        isOneRecord := true;
      }
      assert Snapshot() == Selected(records, selectOne);
      if response.None? || response.value == map[] {
        return None;
      }
      raised := ReadResponse(response.value);
    }

    /** `info` once a row is chosen: the type code, the document token,
        the copied attributes, the director or the name, the name parts
        and the dictionary. */
    method ReadResponse(rec: Record) returns (raised: Option<InfoError>)
      modifies this
      ensures InfoOutcome(Snapshot(), raised) == ReadRow(old(Snapshot()), rec)
    {
      if "k" !in rec {
        return Some(MissingKey("k"));
      }
      ghost var before := card;
      if rec["k"] == "ul" {
        card := card.(orgType := "ul");
      } else if rec["k"] == "fl" {
        card := card.(orgType := "ip");
      } else if rec["k"] == "sprav-fl" {
        card := card.(orgType := "fl");
      } else {
        card := card.(orgType := "unknown");
      }
      assert card == before.(orgType := OrgType(rec["k"]));
      if "t" !in rec {
        return Some(MissingKey("t"));
      }
      card := card.(docToken := rec["t"]);
      if card.orgType == "fl" {
        return None;
      }
      CopyFields(rec);
      if rec["k"] == "ul" {
        raised := ReadLeadership(rec);
        if raised.Some? {
          return;
        }
      } else if "n" in rec {
        card := card.(fio := rec["n"]);
      }
      SplitNameAndWrite();
      raised := None;
    }

    /** The end of `info`: `fio_split` fills in the name parts, then
        `_write_dict` runs. */
    method SplitNameAndWrite()
      modifies this`card, this`dict
      ensures Snapshot() == Finished(old(Snapshot()))
    {
      var parts := FioSplit(card.fio);
      card := card.(fioF := parts.surname, fioI := parts.givenName, fioO := parts.patronymic);
      WriteDict();
    }

    /** The copying of the row's attributes in `info`. */
    method CopyFields(rec: Record)
      modifies this`card
      ensures card == Copied(old(card), rec)
    {
      card := card.(titleLong := Get(rec, "n"));
      card := card.(titleShort := Get(rec, "c"));
      card := card.(address := Get(rec, "a"));
      card := card.(inn := Get(rec, "i"));
      card := card.(ogrn := Get(rec, "o"));
      card := card.(kpp := Get(rec, "p"));
      card := card.(regDate := Get(rec, "r"));
      card := card.(endDate := Get(rec, "e"));
      card := card.(notValidDate := Get(rec, "v"));
    }

    /** The director branch of `info` for an organisation. */
    method ReadLeadership(rec: Record) returns (raised: Option<InfoError>)
      modifies this`card
      ensures match Leadership(old(card), rec)
              case Ok(c) => raised.None? && card == c
              case Err(e) => raised == Some(BadDirectors(e)) && card == old(card).(dirsRaw := rec["g"])
    {
      if "g" !in rec {
        card := card.(position := "");
        return None;
      }
      card := card.(dirsRaw := rec["g"]);
      if ',' in rec["g"] && Count(rec["g"], ':') > 1 {
        var parsed := DirsDict(rec["g"]);
        if parsed.Err? {
          return Some(BadDirectors(parsed.error));
        }
        ParseDirectorsShape(rec["g"]);
        card := card.(dirs := parsed.value);
        card := card.(fio := card.dirs[0].fio, position := card.dirs[0].position);
      } else {
        var pieces := SplitAt(rec["g"], ':');
        card := card.(position := Strip(pieces[0]), dirsNum := 1);
        if |pieces| >= 2 {
          card := card.(fio := Strip(pieces[1]));
        } else {
          card := card.(fio := rec["g"]);
        }
      }
      raised := None;
    }
  }

  // ---------------------------------------------------------------- lemmas

  /** Once a non-empty row is chosen, `info` goes on to read it. */
  lemma InfoReadsChosen(records: seq<Record>, selectOne: bool, rec: Record)
    requires Chosen(records, selectOne) == Some(rec) && rec != map[]
    ensures InfoSpec(records, selectOne) == ReadRow(Selected(records, selectOne), rec)
  {
  }

  /** The card of a row that `info` reads past its document token: the
      attributes copied from the row, then the director or the name. */
  lemma ReadRowCard(f: Fields, rec: Record)
    requires "k" in rec && rec["k"] != "sprav-fl" && "t" in rec
    ensures var copied := Copied(f.card.(orgType := OrgType(rec["k"]), docToken := rec["t"]), rec);
            var o := ReadRow(f, rec);
            && (rec["k"] == "ul" && Leadership(copied, rec).Ok? ==>
                  o == InfoOutcome(Finished(f.(card := Leadership(copied, rec).value)), None))
            && (rec["k"] == "ul" && Leadership(copied, rec).Err? ==>
                  o == InfoOutcome(f.(card := copied.(dirsRaw := rec["g"])),
                                   Some(BadDirectors(Leadership(copied, rec).error))))
            && (rec["k"] != "ul" ==>
                  o == InfoOutcome(Finished(f.(card := if "n" in rec then copied.(fio := rec["n"]) else copied)), None))
  {
  }

  /** `info` stores the search result, its active rows and their counts,
      keeps the row `Chosen` names, and sets `is_one_record` exactly for a
      single row; the document attributes keep their reset values. */
  lemma InfoSearch(records: seq<Record>, selectOne: bool)
    ensures var s := InfoSpec(records, selectOne).state;
            && s.responseRaw == records && s.responseNum == |records|
            && s.responseAct == Acting(records) && s.responseActNum == |Acting(records)|
            && s.response == Chosen(records, selectOne)
            && (s.isOneRecord <==> |records| == 1)
            && !s.isDocLoaded && s.docPdf == [] && s.isValidOrg.None?
  {
    var f := Selected(records, selectOne);
    if f.response.Some? && f.response.value != map[] {
      InfoReadsChosen(records, selectOne, f.response.value);
    }
  }

  /** With no row to read (no row at all, several rows and `selecte_one`
      false, or an empty row) `info` returns without raising and every
      attribute but the search result keeps its reset value. */
  lemma InfoWithoutRow(records: seq<Record>, selectOne: bool)
    requires Chosen(records, selectOne).None? || Chosen(records, selectOne) == Some(map[])
    ensures InfoSpec(records, selectOne).raised.None?
    ensures ResetApartFromSearch(InfoSpec(records, selectOne).state)
  {
  }

  /** The type code: 'ul' stays 'ul', 'fl' becomes 'ip', 'sprav-fl'
      becomes 'fl' and any other code 'unknown'; the document token is
      copied; a row without 'k' or without 't' raises `KeyError`. */
  lemma InfoTypeCode(records: seq<Record>, selectOne: bool, rec: Record)
    requires Chosen(records, selectOne) == Some(rec) && rec != map[]
    ensures var o := InfoSpec(records, selectOne);
            && ("k" !in rec ==> o == InfoOutcome(Selected(records, selectOne), Some(MissingKey("k"))))
            && ("k" in rec ==>
                  o.state.card.orgType ==
                    if rec["k"] == "ul" then "ul"
                    else if rec["k"] == "fl" then "ip"
                    else if rec["k"] == "sprav-fl" then "fl"
                    else "unknown")
            && ("k" in rec && "t" !in rec ==> o.raised == Some(MissingKey("t")))
            && ("k" in rec && "t" in rec ==> o.state.card.docToken == rec["t"])
  {
  }

  /** A private person's reference row ('sprav-fl') stops `info` after
      the document token: the titles, address, identifiers, dates, name,
      directors and dictionary all keep their reset values. */
  lemma InfoPersonReference(records: seq<Record>, selectOne: bool, rec: Record)
    requires Chosen(records, selectOne) == Some(rec)
    requires "k" in rec && rec["k"] == "sprav-fl" && "t" in rec
    ensures InfoSpec(records, selectOne) ==
              InfoOutcome(Selected(records, selectOne).(card := EmptyCard().(orgType := "fl", docToken := rec["t"])), None)
  {
  }

  /** For any other code `info` copies the row's titles, address,
      identifiers and dates, '' for an absent key. */
  lemma InfoCopiesAttributes(records: seq<Record>, selectOne: bool, rec: Record)
    requires Chosen(records, selectOne) == Some(rec)
    requires "k" in rec && rec["k"] != "sprav-fl" && "t" in rec
    ensures var c := InfoSpec(records, selectOne).state.card;
            && c.titleLong == Get(rec, "n") && c.titleShort == Get(rec, "c")
            && c.address == Get(rec, "a") && c.inn == Get(rec, "i") && c.ogrn == Get(rec, "o")
            && c.kpp == Get(rec, "p") && c.regDate == Get(rec, "r")
            && c.endDate == Get(rec, "e") && c.notValidDate == Get(rec, "v")
  {
    InfoReadsChosen(records, selectOne, rec);
    ReadRowCard(Selected(records, selectOne), rec);
  }

  /** For a code other than 'ul' the name is the row's 'n' and no
      director is read. */
  lemma InfoNamesPerson(records: seq<Record>, selectOne: bool, rec: Record)
    requires Chosen(records, selectOne) == Some(rec)
    requires "k" in rec && rec["k"] != "sprav-fl" && rec["k"] != "ul" && "t" in rec
    ensures var o := InfoSpec(records, selectOne);
            && o.raised.None? && o.state.card.fio == Get(rec, "n")
            && o.state.card.position == "" && o.state.card.dirsRaw == ""
            && o.state.card.dirs == map[] && o.state.card.dirsNum == 0
  {
    InfoReadsChosen(records, selectOne, rec);
    ReadRowCard(Selected(records, selectOne), rec);
  }

  /** An organisation without a director field: `position` and `fio`
      stay ''. */
  lemma InfoNoDirectorField(records: seq<Record>, selectOne: bool, rec: Record)
    requires Chosen(records, selectOne) == Some(rec)
    requires "k" in rec && rec["k"] == "ul" && "t" in rec && "g" !in rec
    ensures var o := InfoSpec(records, selectOne);
            && o.raised.None?
            && o.state.card.position == "" && o.state.card.fio == ""
            && o.state.card.dirsRaw == "" && o.state.card.dirsNum == 0
  {
  }

  /** An organisation whose director field has a comma and at least two
      colons: when every interior piece has a comma, `dirs` is the parse,
      `dirs_num` the number of colons, and the first director gives the
      position (the stripped first piece) and the fio (the stripped text
      of the second piece before its comma). */
  lemma InfoSeveralDirectors(records: seq<Record>, selectOne: bool, rec: Record)
    requires Chosen(records, selectOne) == Some(rec)
    requires "k" in rec && rec["k"] == "ul" && "t" in rec && "g" in rec
    requires ',' in rec["g"] && Count(rec["g"], ':') > 1
    requires InteriorHaveCommas(SplitAt(rec["g"], ':'))
    ensures var g := rec["g"];
            var pieces := SplitAt(g, ':');
            var o := InfoSpec(records, selectOne);
            && o.raised.None?
            && ParseDirectors(g).Ok? && o.state.card.dirs == ParseDirectors(g).value
            && o.state.card.dirsRaw == g
            && o.state.card.dirsNum == Count(g, ':')
            && o.state.card.position == Strip(pieces[0])
            && o.state.card.fio == Strip(BeforeComma(pieces[1]))
  {
    var g := rec["g"];
    ParseDirectorsOk(g);
    ParseDirectorsShape(g);
  }

  /** ... and when an interior piece has no comma, `info` raises the
      `ValueError` of the first such piece, with `dirs_raw` already set. */
  lemma InfoDirectorWithoutComma(records: seq<Record>, selectOne: bool, rec: Record, i: nat)
    requires Chosen(records, selectOne) == Some(rec)
    requires "k" in rec && rec["k"] == "ul" && "t" in rec && "g" in rec
    requires ',' in rec["g"] && Count(rec["g"], ':') > 1
    requires var pieces := SplitAt(rec["g"], ':');
             && 0 < i < |pieces| - 1 && ',' !in pieces[i]
             && forall i' :: 0 < i' < i ==> ',' in pieces[i']
    ensures InfoSpec(records, selectOne).raised == Some(BadDirectors(MissingComma(i)))
    ensures InfoSpec(records, selectOne).state.card.dirsRaw == rec["g"]
  {
    ParseDirectorsMissingComma(rec["g"], i);
  }

  /** An organisation with any other director field has one director:
      the position is the stripped text before the first colon and the
      fio the stripped text between the first and the second colon, or,
      without a colon, the position is the stripped field and the fio the
      field unchanged. */
  lemma InfoOneDirector(records: seq<Record>, selectOne: bool, rec: Record)
    requires Chosen(records, selectOne) == Some(rec)
    requires "k" in rec && rec["k"] == "ul" && "t" in rec && "g" in rec
    requires !(',' in rec["g"] && Count(rec["g"], ':') > 1)
    ensures var g := rec["g"];
            var pieces := SplitAt(g, ':');
            var o := InfoSpec(records, selectOne);
            && o.raised.None?
            && o.state.card.dirsRaw == g && o.state.card.dirsNum == 1
            && o.state.card.dirs == map[]
            && (Count(g, ':') >= 1 ==>
                  o.state.card.position == Strip(pieces[0]) && o.state.card.fio == Strip(pieces[1]))
            && (Count(g, ':') == 0 ==>
                  o.state.card.position == Strip(g) && o.state.card.fio == g)
  {
    if Count(rec["g"], ':') == 0 {
      SplitAtWithoutSep(rec["g"], ':');
    }
  }

  /** When `info` reads a row to the end, the name parts are `fio_split`
      of the fio and `dict` holds exactly what `_write_dict` writes into
      an empty dictionary. */
  lemma InfoNameAndDict(records: seq<Record>, selectOne: bool, rec: Record)
    requires Chosen(records, selectOne) == Some(rec)
    requires "k" in rec && rec["k"] != "sprav-fl" && "t" in rec
    requires InfoSpec(records, selectOne).raised.None?
    ensures var s := InfoSpec(records, selectOne).state;
            var parts := FioSplit(s.card.fio);
            && s.card.fioF == parts.surname && s.card.fioI == parts.givenName
            && s.card.fioO == parts.patronymic
            && s.dict == Written(map[], s)
  {
  }

  /** The keys `_write_dict` leaves in `dict`: those it always writes,
      'dirs' exactly when there are directors and 'is_valid_org' exactly
      when it is known; any other key keeps its value. */
  lemma WrittenKeys(d: map<string, Value>, f: Fields)
    ensures forall key :: key in Written(d, f) <==>
              || key in d || key in AlwaysWritten
              || (key == "dirs" && f.card.dirs != map[])
              || (key == "is_valid_org" && f.isValidOrg.Some?)
    ensures forall key :: key in d && key !in AlwaysWritten && key != "dirs" && key != "is_valid_org" ==>
              Written(d, f)[key] == d[key]
  {
  }

  /** `_write_dict` stores the names, the kind and the address of the
      organisation under their keys. */
  lemma WrittenNames(d: map<string, Value>, f: Fields)
    ensures var w := Written(d, f);
            && w["type"] == Str(f.card.orgType) && w["title_long"] == Str(f.card.titleLong)
            && w["title_short"] == Str(f.card.titleShort) && w["position"] == Str(f.card.position)
            && w["fio"] == Str(f.card.fio) && w["address"] == Str(f.card.address)
  {
  }

  /** `_write_dict` stores the registration numbers and dates under their
      keys. */
  lemma WrittenNumbers(d: map<string, Value>, f: Fields)
    ensures var w := Written(d, f);
            && w["inn"] == Str(f.card.inn) && w["ogrn"] == Str(f.card.ogrn)
            && w["kpp"] == Str(f.card.kpp) && w["reg_date"] == Str(f.card.regDate)
            && w["end_date"] == Str(f.card.endDate) && w["not_valid_date"] == Str(f.card.notValidDate)
  {
  }

  /** `_write_dict` stores the directors' data, the document flag, the
      validity check when one was made, and the active-row count. */
  lemma WrittenStateValues(d: map<string, Value>, f: Fields)
    ensures var w := Written(d, f);
            && w["dirs_raw"] == Str(f.card.dirsRaw) && w["dirs_num"] == Int(f.card.dirsNum)
            && w["is_doc_loaded"] == Bool(f.isDocLoaded)
            && w["response_act_num"] == Int(f.responseActNum)
            && (f.card.dirs != map[] ==> w["dirs"] == Dirs(f.card.dirs))
            && (f.isValidOrg.Some? ==> w["is_valid_org"] == Bool(f.isValidOrg.value))
  {
  }

  // ------------------------------------------------ the "nothing found" answer

  /** As written, `info` reads the register's "nothing found" answer as
      the one record found: it sets `is_one_record`, and since that row
      has no 'k' it raises `KeyError`, with no active row counted. */
  lemma InfoNothingFoundRaises(records: seq<Record>, selectOne: bool)
    requires IsNothingFound(records) && "k" !in records[0]
    ensures var o := InfoSpec(records, selectOne);
            && o.raised == Some(MissingKey("k"))
            && o.state.isOneRecord && o.state.response == Some(records[0])
            && o.state.responseActNum == 0
  {
    assert Acting(records) == [];
  }

  /** With the intended selection the "nothing found" answer raises
      nothing: every attribute but the search result keeps its reset
      value, and there is neither a record nor a single record. */
  lemma IntendedInfoNothingFound(records: seq<Record>, selectOne: bool)
    requires IsNothingFound(records)
    ensures var o := IntendedInfoSpec(records, selectOne);
            && o.raised.None?
            && ResetApartFromSearch(o.state)
            && o.state.response.None? && !o.state.isOneRecord
            && o.state.responseRaw == records && o.state.responseNum == 1
            && o.state.responseAct == [] && o.state.responseActNum == 0
  {
  }

  /** On every other search result the intended `info` is `info` as
      written. */
  lemma IntendedInfoElsewhere(records: seq<Record>, selectOne: bool)
    requires !IsNothingFound(records)
    ensures IntendedInfoSpec(records, selectOne) == InfoSpec(records, selectOne)
  {
  }
}
