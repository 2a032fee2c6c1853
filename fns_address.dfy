/** `addr_cut` of the `FNS` class in fns.py: an address is tokenised by an
    ordered list of literal replacements that turn separators and
    street-type words into bracketed placeholders, after which the
    separator and city placeholders become single spaces. */
module FnsAddress {
  import opened PyStr

  /** A text a pass searches for; `str.replace` is only ever given
      non-empty ones here. */
  type Pattern = s: string | s != [] witness " "

  /** What a pass writes: one of the bracketed placeholders, or a single
      space. */
  datatype Marker =
    | Separator
    | Street
    | Avenue
    | House
    | City
    | Settlement
    | Office
    | Block
    | Premises
    | Highway
    | Flat
    | Letter
    | Room
    | Space

  /** The text each marker stands for. */
  function Text(m: Marker): (t: string)
    ensures t != [] && ',' !in t
  {
    match m
    case Separator => "[РАЗДЕЛИТЕЛЬ]"
    case Street => "[УЛИЦА]"
    case Avenue => "[ПРОСПЕКТ]"
    case House => "[ДОМ]"
    case City => "[ГОРОД]"
    case Settlement => "[ПОСЕЛОК]"
    case Office => "[ОФИС]"
    case Block => "[КОРПУС]"
    case Premises => "[ПОМЕЩЕНИЕ]"
    case Highway => "[ШОССЕ]"
    case Flat => "[КВАРТИРА]"
    case Letter => "[ЛИТЕРА]"
    case Room => "[КОМНАТА]"
    case Space => " "
  }

  /** One replacement pass: every occurrence of `pat` becomes `Text(marker)`. */
  datatype Cut = Cut(pat: Pattern, marker: Marker)

  /** The replacement passes of `addr_cut`, in the order they run. */
  const Cuts: seq<Cut> := [
    Cut(", ", Separator),
    Cut(",", Separator),
    Cut(" УЛИЦА ", Street),
    Cut(" УЛ.", Street),
    Cut(" ПР.", Avenue),
    Cut(" ПРОСПЕКТ ", Avenue),
    Cut(" ДОМ ", House),
    Cut(" Д.", House),
    Cut(" ГОРОД", City),
    Cut(" ПОСЕЛОК ", Settlement),
    Cut(" П. ", Settlement),
    Cut(" ОФИС", Office),
    Cut(" ОФ ", Office),
    Cut(" ОФ.", Office),
    Cut(" КОРПУС ", Block),
    Cut(" КОРП.", Block),
    Cut(" ПОМЕЩЕНИЕ ", Premises),
    Cut(" ПОМ ", Premises),
    Cut(" ПОМ. ", Premises),
    Cut(" ШОССЕ", Highway),
    Cut(" Ш.", Highway),
    Cut(" ГОРОД ", City),
    Cut(" Г. ", City),
    Cut(" КВАРТИРА ", Flat),
    Cut(" КВ.", Flat),
    Cut(" ЛИТЕРА ", Letter),
    Cut(" ЛИТЕР ", Letter),
    Cut(" ЛИТ.", Letter),
    Cut(" ЛИТ ", Letter),
    Cut(" КОМНАТА ", Room),
    Cut(" КОМ.", Room),
    Cut("  ", Space)
  ]

  /** The passes run one after the other, the first pass first. */
  function ApplyCuts(s: string, cuts: seq<Cut>): (r: string)
    decreases |cuts|
  {
    if cuts == [] then s
    else Replace(ApplyCuts(s, cuts[..|cuts| - 1]), cuts[|cuts| - 1].pat, Text(cuts[|cuts| - 1].marker))
  }

  /** `addr_cut(address)`: the passes, then the separator placeholder and
      the city placeholder each become one space. */
  function Tokenized(address: string): (r: string)
  {
    Replace(Replace(ApplyCuts(address, Cuts), Text(Separator), " "), Text(City), " ")
  }

  /** `addr_cut`: the passes run in a loop over the list, each one
      reassigning the address. */
  method AddrCut(address: string) returns (newAddress: string)
    ensures newAddress == Tokenized(address)
  {
    newAddress := address;
    for i := 0 to |Cuts|
      invariant newAddress == ApplyCuts(address, Cuts[..i])
    {
      assert Cuts[..i + 1][..i] == Cuts[..i];
      newAddress := Replace(newAddress, Cuts[i].pat, Text(Cuts[i].marker));
    }
    assert Cuts[..|Cuts|] == Cuts;
    newAddress := Replace(newAddress, Text(Separator), " ");
    newAddress := Replace(newAddress, Text(City), " ");
  }

  // ---------------------------------------------------------------- lemmas

  /** Running two lists of passes is running the first, then the second. */
  lemma {:induction false} ApplyCutsAppend(s: string, a: seq<Cut>, b: seq<Cut>)
    ensures ApplyCuts(s, a + b) == ApplyCuts(ApplyCuts(s, a), b)
    decreases |b|
  {
    if b == [] {
      assert a + b == a;
    } else {
      var b' := b[..|b| - 1];
      assert (a + b)[..|a + b| - 1] == a + b';
      ApplyCutsAppend(s, a, b');
    }
  }

  /** No pass writes a comma, so passes cannot bring one back. */
  lemma {:induction false} ApplyCutsKeepsCommaOut(s: string, cuts: seq<Cut>)
    requires ',' !in s
    ensures ',' !in ApplyCuts(s, cuts)
    decreases |cuts|
  {
    if cuts != [] {
      var last := cuts[|cuts| - 1];
      var before := ApplyCuts(s, cuts[..|cuts| - 1]);
      ApplyCutsKeepsCommaOut(s, cuts[..|cuts| - 1]);
      ContainsChar(before, ',');
      ContainsChar(Replace(before, last.pat, Text(last.marker)), ',');
      ReplaceOccurrences(before, last.pat, Text(last.marker), ",");
    }
  }

  /** After the first two passes the address holds no comma. */
  lemma CommaGoneAfterTwoPasses(address: string)
    ensures ',' !in ApplyCuts(address, Cuts[..2])
  {
    var s := ApplyCuts(address, Cuts[..2]);
    assert Cuts[..2][..1] == Cuts[..1];
    assert s == Replace(ApplyCuts(address, Cuts[..1]), ",", Text(Separator));
    ReplaceOccurrences(ApplyCuts(address, Cuts[..1]), ",", Text(Separator), ",");
    ContainsChar(s, ',');
  }

  /** After all the passes the address holds no comma. */
  lemma CommaGoneAfterPasses(address: string)
    ensures ',' !in ApplyCuts(address, Cuts)
  {
    ApplyCutsAppend(address, Cuts[..2], Cuts[2..]);
    assert Cuts[..2] + Cuts[2..] == Cuts;
    CommaGoneAfterTwoPasses(address);
    ApplyCutsKeepsCommaOut(ApplyCuts(address, Cuts[..2]), Cuts[2..]);
  }

  /** The output of `addr_cut` holds no comma. */
  lemma NoCommaInOutput(address: string)
    ensures ',' !in Tokenized(address)
  {
    var s := ApplyCuts(address, Cuts);
    var s1 := Replace(s, Text(Separator), " ");
    CommaGoneAfterPasses(address);
    ContainsChar(s, ',');
    ReplaceOccurrences(s, Text(Separator), " ", ",");
    ContainsChar(s1, ',');
    ReplaceOccurrences(s1, Text(City), " ", ",");
    ContainsChar(Tokenized(address), ',');
  }

  /** The output of `addr_cut` holds neither placeholder that it turns
      back into a space. */
  lemma NoPlaceholderInOutput(address: string)
    ensures !Contains(Tokenized(address), Text(Separator))
    ensures !Contains(Tokenized(address), Text(City))
  {
    var s := ApplyCuts(address, Cuts);
    var s1 := Replace(s, Text(Separator), " ");
    ReplaceOccurrences(s, Text(Separator), " ", Text(Separator));
    ReplaceOccurrences(s1, Text(City), " ", Text(Separator));
    ReplaceOccurrences(s1, Text(City), " ", Text(City));
  }

  /** Passes whose patterns do not occur leave the text as it is. */
  lemma {:induction false} ApplyCutsNoMatch(s: string, cuts: seq<Cut>)
    requires forall i :: 0 <= i < |cuts| ==> !Contains(s, cuts[i].pat)
    ensures ApplyCuts(s, cuts) == s
    decreases |cuts|
  {
    if cuts != [] {
      ApplyCutsNoMatch(s, cuts[..|cuts| - 1]);
    }
  }

  /** An address holding no pattern of the passes and neither placeholder
      comes back from `addr_cut` unchanged. */
  lemma UnchangedWithoutPatterns(address: string)
    requires forall i :: 0 <= i < |Cuts| ==> !Contains(address, Cuts[i].pat)
    requires !Contains(address, Text(Separator)) && !Contains(address, Text(City))
    ensures Tokenized(address) == address
  {
    ApplyCutsNoMatch(address, Cuts);
  }
}
