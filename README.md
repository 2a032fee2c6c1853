# FNS register client — Dafny model

fns.py wraps the public search of the Russian tax service (ФНС, nalog.ru).
A query by INN or OGRN returns rows. Each row is a JSON object with short
keys:

- 'k': the kind of record;
- 't': the document token;
- 'n' and 'c': the long and short titles;
- 'a': the address;
- 'i', 'o' and 'p': INN, OGRN and KPP;
- 'r', 'e' and 'v': the registration, end and invalid-from dates;
- 'g': the director field, e.g. "ДИРЕКТОР: Иванов Иван Иванович".

The `FNS` object resets its attributes and keeps the rows that are still
active. It chooses one row, reads that row into its attributes, splits the
director field and the person's name, and collects everything into a
summary dictionary. Two helpers (`is_inn` and `addr_cut`) check an INN and
tokenise an address.

The model has one module per part of the class.

- `PyStr` (pystr.dfy) holds the Python string operations the code relies on:
  - `split()`, `split(':')`, `' '.join`, `strip()`, `count`, `index`, `in` and `replace`;
  - whitespace is exactly the set for which `str.isspace()` holds;
  - lemmas about these operations, which the other modules use.
- `FnsRecords` (fns_records.dfy) models `_acting_records` and the choice of the row `info` reads.
- `FnsFormats` (fns_formats.dfy) models `fio_split` and `is_inn`.
- `FnsDirectors` (fns_directors.dfy) models `_dirs_dict`:
  - its two loops, as methods;
  - the parse they compute, as functions;
  - how the result relates to the colon-separated pieces of the field.
- `FnsAddress` (fns_address.dfy) models `addr_cut`:
  - the loop over the 32 replacement passes;
  - the two final replacements;
  - what the output can no longer contain.
- `Fns` (fns.dfy) models the `FNS` class itself:
  - `_reset_variables`, `info`, `_write_dict` and the `dirs_num` update of `_dirs_dict`, as methods that change the object's fields;
  - each method is proved against a specification function of the old state (`ResetFields`, `InfoSpec`, `Written`, `ParseDirectors`);
  - lemmas state what `info` does with each kind of row.
  - The row attributes (`type` … `dirs_num`) are held in one `Card` value, which the methods update field by field.

The search itself (`_get_response`) is not modelled. `Info` takes the rows
it would return as a parameter, and `response_num` is their number, which
is what `_get_response` sets.

Points worth knowing about the code:

- For a private person's reference row ('sprav-fl'), `info` returns right after storing the document token (fns.py:147-148). It does not copy the name.
- The code turns code 'fl' into type 'ip' and 'sprav-fl' into type 'fl' (fns.py:136-143).
- `addr_cut` does not always return the same text when applied twice. "A,ГОРОД" becomes "A ГОРОД", whose second pass produces "A ". The model claims no idempotence.

## Model

| member | source | states |
|---|---|---|
| FnsRecords.ActingRecords | fns.py:287-298 | the loop's result equals `Acting`: no rows for the single "tot" == "0" answer, otherwise the rows without 'e' and 'v', in order |
| FnsRecords.ActiveRowsMembers | fns.py:294-296 | a row is kept iff it is in the input and has neither 'e' nor 'v'; it is kept as often as it occurs |
| FnsRecords.ActiveRowsInOrder | fns.py:294-296 | the kept rows are a subsequence of the input, so there are never more of them |
| FnsRecords.ActingMeaning | fns.py:287-298 | `_acting_records` returns [] for "nothing found"; otherwise exactly the active rows, as a subsequence of the input |
| FnsRecords.ActiveRowsHead | fns.py:294-296 | the first row kept is the first active row of the input |
| FnsRecords.ActiveRowsNone | fns.py:294-296 | without an active row nothing is kept |
| FnsRecords.ChosenFirstActive | fns.py:116-119 | with several rows and `selecte_one`, the row read is the first active row |
| FnsRecords.ChosenNoneActive | fns.py:116-121 | with several rows, none active, and `selecte_one`, the row read is the first row |
| FnsRecords.ChosenNone | fns.py:116-134 | no row is read iff there are no rows, or several rows and `selecte_one` is false; a row read is one of the input rows |
| FnsFormats.FioSplit | fns.py:440-456 | surname, given name and patronymic are the first word, the second word and the remaining words joined by single spaces, of `fio.split()`; '' where words run out |
| FnsFormats.FioSplitRejoins | fns.py:450-455 | with three or more words the parts rejoined with spaces give the name with its whitespace collapsed |
| FnsFormats.FioSplitOfBlank | fns.py:450-455 | a name made only of whitespace gives three empty parts |
| FnsFormats.IsDigitsMeaning | fns.py:504 | `isdigit` holds iff the string is non-empty and every character is a digit |
| FnsFormats.IsInnMeaning | fns.py:491-511 | `is_inn` holds iff the length is 10 or 12, every character is a digit and the first two are not both '0' |
| FnsDirectors.DirectorTokens | fns.py:528-536 | the first loop yields `Tokens` of the colon pieces: first and last piece stripped whole, an interior piece cut at its first comma; `ValueError` on the first interior piece without a comma |
| FnsDirectors.PairDirectors | fns.py:538-546 | the second loop yields `Pairs`: director j is tokens 2j and 2j + 1; `IndexError` for an odd token count |
| FnsDirectors.PieceTokens | fns.py:530-536 | a piece fails iff it is interior and has no comma; otherwise it adds one token (first or last piece) or two |
| FnsDirectors.Pairs | fns.py:538-546 | pairing succeeds iff the token count is even, and then numbers exactly the first count/2 directors |
| FnsDirectors.BeforeComma | fns.py:534-535 | the text before the first comma holds no comma |
| FnsDirectors.CutAtFirstComma | fns.py:534-536 | the text before and the text after the first comma, with the comma between, give back the piece |
| FnsDirectors.TokensKeepFirstError | fns.py:530-536 | once a piece raises, the later pieces do not change the outcome |
| FnsDirectors.TokensOk | fns.py:530-536 | the first loop succeeds on the first k pieces iff every interior piece among them has a comma |
| FnsDirectors.TokensFirstError | fns.py:534 | the error names the first interior piece without a comma |
| FnsDirectors.TokensLength | fns.py:530-536 | after k pieces `result_list` has 2k - 1 tokens, or 2k - 2 once the last of several pieces is in |
| FnsDirectors.TokensAt | fns.py:530-536 | the tokens of piece i sit at positions 2i - 1 and 2i (the first piece's token at 0) |
| FnsDirectors.DirectorsOfPiecesOk | fns.py:528-546 | the pieces give directors iff there are at least two and every interior one has a comma |
| FnsDirectors.PairsAt | fns.py:541-546 | entry j of the pairing is `{position: tokens[2j], fio: tokens[2j+1]}` |
| FnsDirectors.PositionToken | fns.py:530-536 | token 2j is the first piece stripped (j = 0) or the text after the comma of piece j, stripped |
| FnsDirectors.FioToken | fns.py:530-536 | token 2j + 1 is the last piece stripped or the text before the comma of piece j + 1, stripped |
| FnsDirectors.DirectorsOfPiecesAt | fns.py:528-546 | director j of a successful parse is read straight off pieces j and j + 1 |
| FnsDirectors.ParseDirectorsOk | fns.py:515-550 | `_dirs_dict` succeeds iff the field has a colon and every interior piece has a comma |
| FnsDirectors.ParseDirectorsShape | fns.py:515-550 | on success with n colons there are 2n tokens, directors 0..n-1 and `dirs_num` n; director j comes from pieces j and j + 1; the first position is the first piece, the last fio the last piece |
| FnsDirectors.ParseDirectorsMissingComma | fns.py:534 | `_dirs_dict` raises `ValueError` at the first interior piece without a comma |
| FnsDirectors.ParseDirectorsWithoutColon | fns.py:538-546 | a field without a colon gives one token, and the pairing loop raises `IndexError` |
| FnsAddress.AddrCut | fns.py:555-603 | the loop applies the 32 passes in order, then turns '[РАЗДЕЛИТЕЛЬ]' and '[ГОРОД]' into spaces: the result is `Tokenized(address)` |
| FnsAddress.Text | fns.py:560-592 | every replacement text is non-empty and holds no comma |
| FnsAddress.ApplyCutsAppend | fns.py:596-597 | running two lists of passes is running the first, then the second |
| FnsAddress.ApplyCutsKeepsCommaOut | fns.py:596-597 | passes cannot bring a comma back into text that has none |
| FnsAddress.CommaGoneAfterTwoPasses | fns.py:560-561 | after the passes for ', ' and ',' no comma is left |
| FnsAddress.CommaGoneAfterPasses | fns.py:560-597 | after all 32 passes no comma is left |
| FnsAddress.NoCommaInOutput | fns.py:555-603 | the output of `addr_cut` holds no comma |
| FnsAddress.NoPlaceholderInOutput | fns.py:600-601 | the output holds neither '[РАЗДЕЛИТЕЛЬ]' nor '[ГОРОД]' |
| FnsAddress.ApplyCutsNoMatch | fns.py:596-597 | passes whose patterns do not occur leave the text unchanged |
| FnsAddress.UnchangedWithoutPatterns | fns.py:555-603 | an address holding no pattern and neither final placeholder comes back unchanged |
| Fns.FNS.constructor | fns.py:62-94 | a new object starts with every attribute at its reset value |
| Fns.FNS.ResetVariables | fns.py:62-94 | every attribute gets its reset value: '' strings, empty `dirs` and `dict`, 0 counts, false flags, empty `doc_pdf`, `is_valid_org` None |
| Fns.FNS.WriteDict | fns.py:412-437 | `dict` becomes `Written(old dict, old attributes)`; 'dirs' is written only when there are directors, 'is_valid_org' only when not None; nothing else changes |
| Fns.FNS.DirsDict | fns.py:515-550 | the result is `ParseDirectors(g)`; on success `dirs_num` becomes the number of directors, on failure nothing changes |
| Fns.FNS.Info | fns.py:98-200 | the attributes and the raised error after `info` are exactly `InfoSpec(records, selecte_one)` |
| Fns.FNS.ReadResponse | fns.py:136-200 | reading the chosen row gives exactly `ReadRow` of the previous attributes: `KeyError` on 'k' or 't', early return for 'sprav-fl', otherwise copying, the director or the name, the name split and `_write_dict` |
| Fns.FNS.CopyFields | fns.py:150-158 | the nine attributes are `rec.get(key, '')` of their keys; the rest of the card is unchanged |
| Fns.FNS.ReadLeadership | fns.py:161-184 | the card becomes `Leadership` of the old card, or `dirs_raw` is set and `BadDirectors` is raised |
| Fns.FNS.SplitNameAndWrite | fns.py:197-200 | the name parts are `fio_split(fio)`, then `dict` is updated by `_write_dict` |
| Fns.ReadRow | fns.py:136-200 | reading a row changes only the card and the dictionary |
| Fns.Leadership | fns.py:161-184 | an error is possible only with a 'g' key; otherwise only position, fio, `dirs_raw`, `dirs` and `dirs_num` change |
| Fns.Finished | fns.py:197-200 | only the name parts and `dict` change |
| Fns.InfoReadsChosen | fns.py:130-136 | once a non-empty row is chosen, `info` goes on to read it |
| Fns.ReadRowCard | fns.py:150-200 | past the document token, the card is the copied attributes followed by the director branch ('ul') or by 'n' as the fio (any other code) |
| Fns.InfoSearch | fns.py:104-127 | `response_raw`, `response_num`, `response_act` and its count, `_response` and `is_one_record` (iff exactly one row) are set as the search dictates; the document attributes keep their reset values |
| Fns.InfoWithoutRow | fns.py:116-134 | with no row to read, `info` returns without raising and everything but the search result keeps its reset value |
| Fns.InfoTypeCode | fns.py:136-145 | 'ul' gives 'ul', 'fl' gives 'ip', 'sprav-fl' gives 'fl', anything else 'unknown'; a missing 'k' or 't' raises `KeyError`; the token is copied |
| Fns.InfoPersonReference | fns.py:140-148 | a 'sprav-fl' row sets only the type and the token; everything else keeps its reset value |
| Fns.InfoCopiesAttributes | fns.py:150-158 | for other codes the nine attributes are the row's values, '' where a key is absent |
| Fns.InfoNamesPerson | fns.py:186-189 | for codes other than 'ul' the fio is the row's 'n' (or ''), and no director data is set |
| Fns.InfoNoDirectorField | fns.py:180-184 | an organisation without 'g' keeps position and fio '' and `dirs_num` 0 |
| Fns.InfoSeveralDirectors | fns.py:161-171 | with a comma and two or more colons, and commas in every interior piece, `dirs` is the parse, `dirs_num` the number of colons, and the first director gives position and fio |
| Fns.InfoDirectorWithoutComma | fns.py:166-167 | an interior piece without a comma makes `info` raise `ValueError` for the first such piece, after `dirs_raw` is set |
| Fns.InfoOneDirector | fns.py:172-179 | otherwise there is one director: position and fio are the stripped text around the first colon, or without a colon the stripped field and the field itself |
| Fns.InfoNameAndDict | fns.py:197-200 | when `info` reads a row to the end, the name parts are `fio_split(fio)` and `dict` is `_write_dict` applied to an empty dictionary |
| Fns.InfoNothingFoundRaises | fns.py:125-136 | on the single-row "nothing found" answer (a row whose 'tot' is "0" and which has no 'k'), `info` sets `is_one_record`, counts no active row and raises `KeyError` for 'k' |
| Fns.IntendedInfoNothingFound | fns.py:116-134 | with the corrected selection, the "nothing found" answer raises nothing: no row is chosen, `is_one_record` is false, and everything but the search result keeps its reset value |
| Fns.IntendedInfoElsewhere | fns.py:98-200 | on every other search result the corrected `info` equals `info` as written |
| Fns.WrittenKeys | fns.py:412-437 | the keys after `_write_dict` are the old keys, the 16 always written, 'dirs' iff there are directors and 'is_valid_org' iff it is known; other keys keep their values |
| Fns.WrittenNames | fns.py:413-418 | 'type', 'title_long', 'title_short', 'position', 'fio' and 'address' hold the attributes |
| Fns.WrittenNumbers | fns.py:419-424 | 'inn', 'ogrn', 'kpp' and the three dates hold the attributes |
| Fns.WrittenStateValues | fns.py:427-437 | 'dirs_raw', 'dirs_num', 'is_doc_loaded', 'response_act_num', 'dirs' (when present) and 'is_valid_org' (when known) hold the attributes |
| PyStr.SplitWhitespace | fns.py:450 | `split()` yields only non-empty words without whitespace |
| PyStr.SplitAt | fns.py:528 | `split(sep)` yields one piece more than there are separators, and no piece holds a separator |
| PyStr.JoinSplitAt | fns.py:528 | joining the pieces of `split(sep)` with `sep` gives the string back |
| PyStr.IndexOf | fns.py:534 | `index(c)` fails iff `c` is absent; otherwise it is the first position of `c` |
| PyStr.Replace | fns.py:597 | `replace` leaves text without the pattern unchanged |
| PyStr.WordLen | fns.py:450 | the leading word ends at the first whitespace character |
| PyStr.LeadingSpaces | fns.py:532 | the leading run of whitespace ends at the first non-space character |
| PyStr.StripIsInfix | fns.py:532 | `strip()` keeps the block that follows the leading whitespace, and only whitespace follows it |
| PyStr.BlockAfterOneMore | fns.py:532 | a character in front moves the stripped block one place on |
| PyStr.BlockBeforeOneMore | fns.py:532 | trailing whitespace leaves a block at the start in place |
| PyStr.StripEnds | fns.py:532 | what `strip()` keeps begins and ends with a non-space character |
| PyStr.ContainsChar | fns.py:166 | `[c] in s` iff `c` occurs in `s` |
| PyStr.ContainsInSuffix | fns.py:597 | an occurrence in a suffix is an occurrence in the whole |
| PyStr.ContainsPastPrefix | fns.py:597 | no occurrence of `q` starts in a prefix that lacks `q`'s first character |
| PyStr.ReplacePrefixCopied | fns.py:597 | a prefix of the output that holds no replacement character is copied from the input |
| PyStr.ReplaceOccurrences | fns.py:597 | when the replacement shares no character with `q`, every occurrence of `q` after `replace` was there before, and the pattern itself is gone |
| PyStr.WordLenOfWord | fns.py:450 | a word followed by whitespace or the end is the leading word |
| PyStr.SplitWordThenRest | fns.py:450 | a word, a space and more text split into that word and the split of the text |
| PyStr.SplitJoinWords | fns.py:450 | joining words with single spaces and splitting again gives the same words |
| PyStr.SplitWhitespaceOfBlank | fns.py:450 | `split()` of whitespace alone is empty |
| PyStr.SplitAtWithoutSep | fns.py:174-179 | without the separator `split(sep)` is the string itself as the only piece |

## Findings

| source | as written | input that shows it | evidently intended | confidence | as-written member | corrected member |
|---|---|---|---|---|---|---|
| fns.py:125-136 | a single row is read as the record found, even when it is the register's "nothing found" answer, which `_acting_records` (fns.py:290-291) recognises | the rows `[{'tot': '0'}]` | "nothing found" leaves no row to read, and `info` returns without an error, as for an empty result | medium, not executed | Fns.InfoNothingFoundRaises | Fns.IntendedInfoNothingFound |

The class method `Fns.FNS.Info` keeps the code's behaviour, so that it models fns.py as written. The corrected behaviour is the specification `Fns.IntendedInfoSpec`. `Fns.IntendedInfoElsewhere` proves that it differs from `info` only on the "nothing found" answer.

## Left out

- `_get_response`: the HTTP search, its retries, captcha waits and sleeps are not modelled. `Info` takes the rows as a parameter.
- `_get_response` returning the dict `{}` when the service is unavailable: that path is not modelled. Otherwise it behaves like an empty row list, except that `response_raw` and `response_act` then hold `{}`.
- The dict-typed branch of `_acting_records` (fns.py:300-301) is not modelled, because the rows are always a list here.
- Several parts of the class are left out because they are I/O: `get_doc_pdf`, `save_doc_pdf`, `is_valid_org_check` (PDF text extraction), `search`, `find_fl_inn`, the HTTP session and proxy set-up in `__init__`, and fl.py. `is_valid_org` and `is_doc_loaded` appear only as attributes that `_write_dict` reads.
- Printing and logging are left out, including the warning for more than one active row (fns.py:111-113).
- JSON values of a row are modelled as strings. Dictionary key order is not modelled (`dict` is a `map`).
- FnsFormats.IsInn: accepts only the ASCII digits, while Python's `isdigit` also accepts other Unicode digits. The `str(inn)` conversion of a non-string argument is not modelled.
- `_response` holding '' is modelled as `None`. `response_raw` and `response_act` holding '' before the search are modelled as empty sequences.
- `doc_pdf` is a byte sequence that no modelled operation changes apart from the reset.
- Fns.FNS.DirsDict: the dictionary that the pairing loop has half-built when it raises `IndexError` is local to `_dirs_dict`, and is not modelled. No director field in the branch of `info` that calls `_dirs_dict` can reach that error, because two colons always give an even token count.
