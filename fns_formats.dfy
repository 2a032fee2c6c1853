/** The two format helpers of the `FNS` class in fns.py that do not touch
    the object: splitting a full name (`fio_split`) and checking a tax
    identifier (`is_inn`). */
module FnsFormats {
  import opened PyStr

  /** A full name cut into surname (`fio_f`), given name (`fio_i`) and
      patronymic (`fio_o`). */
  datatype FioParts = FioParts(surname: string, givenName: string, patronymic: string)

  /** `fio_split`: whitespace is collapsed, then the first word is the
      surname, the second the given name, and the remaining words, joined
      by single spaces, the patronymic; a part with no word left is "". */
  function FioSplit(fio: string): (parts: FioParts)
    ensures var words := SplitWhitespace(fio);
            && parts.surname == (if |words| >= 1 then words[0] else "")
            && parts.givenName == (if |words| >= 2 then words[1] else "")
            && parts.patronymic == (if |words| >= 3 then Join(" ", words[2..]) else "")
  {
    var fioParts := SplitWhitespace(Join(" ", SplitWhitespace(fio)));
    SplitJoinWords(SplitWhitespace(fio));
    var n := |fioParts|;
    FioParts(
      if n >= 1 then fioParts[0] else "",
      if n >= 2 then fioParts[1] else "",
      if n >= 3 then Join(" ", fioParts[2..]) else "")
  }

  /** The three parts, put back together with single spaces, give the
      name with its whitespace collapsed. */
  lemma {:induction false} FioSplitRejoins(fio: string)
    requires |SplitWhitespace(fio)| >= 3
    ensures var p := FioSplit(fio);
            p.surname + " " + p.givenName + " " + p.patronymic == Join(" ", SplitWhitespace(fio))
  {
    var words := SplitWhitespace(fio);
    assert words[1..][1..] == words[2..];
  }

  /** No part is produced from whitespace alone: each part is a word or
      words of the name, and a name with no word gives three empty parts. */
  lemma {:induction false} FioSplitOfBlank(fio: string)
    requires forall i :: 0 <= i < |fio| ==> IsSpace(fio[i])
    ensures FioSplit(fio) == FioParts("", "", "")
  {
    SplitWhitespaceOfBlank(fio);
  }

  /** Python `s.isdigit()` restricted to the ASCII digits: non-empty and
      made of digits only. */
  predicate IsDigits(s: string)
    decreases |s|
  {
    s != [] && '0' <= s[0] <= '9' && (|s| == 1 || IsDigits(s[1..]))
  }

  /** Python `s.startswith(prefix)`. */
  predicate StartsWith(s: string, prefix: string)
  {
    |prefix| <= |s| && s[..|prefix|] == prefix
  }

  /** `is_inn`: digits only, not starting with "00", ten digits (an
      organisation) or twelve (a person). */
  predicate IsInn(inn: string)
  {
    IsDigits(inn) && !StartsWith(inn, "00") && (|inn| == 10 || |inn| == 12)
  }

  /** `isdigit` holds exactly of the non-empty strings whose every
      character is a digit. */
  lemma {:induction false} IsDigitsMeaning(s: string)
    ensures IsDigits(s) <==> s != [] && forall i :: 0 <= i < |s| ==> '0' <= s[i] <= '9'
    decreases |s|
  {
    if |s| > 1 {
      IsDigitsMeaning(s[1..]);
      assert forall i :: 1 <= i < |s| ==> s[i] == s[1..][i - 1];
    }
  }

  /** What `is_inn` accepts, character by character. */
  lemma IsInnMeaning(inn: string)
    ensures IsInn(inn) <==>
      && (|inn| == 10 || |inn| == 12)
      && (forall i :: 0 <= i < |inn| ==> '0' <= inn[i] <= '9')
      && (inn[0] != '0' || inn[1] != '0')
  {
    IsDigitsMeaning(inn);
    if |inn| >= 2 {
      assert inn[..2] == "00" <==> inn[0] == '0' && inn[1] == '0';
    }
  }
}
