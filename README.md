# Save-file names of Hollow Knight and Silksong, in Dafny

This project models how `hkss-saveinfo` reads a save-file name into a record
and writes the record back. A save-file name has this layout:

    [__<internal_tag>__] user <tag> [_<version>] .dat [.bak<backup_id>]

- `src/parser.rs` cuts a name into those four fields with nom parser
  combinators.
- `src/save_info_struct.rs` holds the `SaveNameInfo` record. Its `Display`
  implementation writes a record back as a name.

Both files are pure, so the model consists of datatypes, functions and lemmas:

- `nom.dfy` (modules `Wrappers` and `Nom`) models the nom combinators the
  grammar uses, in their complete-input form over `&str`. A parser maps the
  remaining input to one of two results:
  - `Failure(rest)`, where `rest` is the remainder nom reports with the error;
  - `Success(rest, value)`, with the unconsumed input and the recognised value.
- `save_info.dfy` (module `SaveInfo`) models the record, `new` and the
  formatter.
- `parser.dfy` (module `Parser`) models the five parsers and `parse`. Each
  parser is specified by the language it accepts: the internal tag, the
  suffix, the dotted-digit version, and the "tail" (version and suffix) that
  ends the user tag.
- `round_trip.dfy` (module `RoundTrip`) relates `parse` and the formatter:
  - formatting a parsed record gives back the name exactly;
  - `parse` of a formatted record gives back the record exactly when the
    record is `Canonical`;
  - lemmas name the records for which the reverse direction fails.
- `examples.dfy` (modules `FormatExamples`, `ParseExamples`) states the
  repository's unit tests and doc examples as lemmas. It adds lemmas for the
  grammar's empty-part edge cases.

Each of these parts may be empty, as the code reads them:

- The internal tag may be empty: `take_until` can return nothing, so
  `____user1.dat` has internal tag `""`.
- The version may be empty: `separated_list0` accepts zero groups, so
  `user1_.dat` has version `Some("")`.
- The user tag may be empty: `many_till` tries the look-ahead before taking
  the first character, so `user.dat` has tag `""`.

## Model

| member | source | states |
|---|---|---|
| Nom.Tag | src/parser.rs:23 | `tag(t)` succeeds exactly when the input starts with `t`, consuming exactly `t`; on failure the remainder is the whole input |
| Nom.IndexOf | src/parser.rs:24 | gives the position of the first occurrence of the pattern, with no occurrence before it, or none when the pattern does not occur |
| Nom.TakeUntil | src/parser.rs:24 | `take_until(t)` takes everything before the first occurrence of `t`, which stays in the input, and contains no occurrence starting inside what it took; it fails without consuming exactly when `t` does not occur |
| Nom.Take1 | src/parser.rs:91 | `take(1)` takes exactly one character and fails exactly on empty input |
| Nom.Digit0 | src/parser.rs:40 | `digit0` always succeeds with the maximal run of ASCII digits: all digits, and the rest does not start with one |
| Nom.Digit1 | src/parser.rs:72 | `digit1` succeeds exactly when a digit comes first, with the maximal non-empty digit run; otherwise it fails without consuming |
| Nom.Eof | src/parser.rs:41 | `eof` succeeds exactly on empty input and never consumes |
| Nom.Opt | src/parser.rs:56 | `opt(p)` never fails: it gives `Some` of `p`'s value and `p`'s rest exactly when `p` succeeds, and `None` with the input untouched otherwise |
| Nom.Peek | src/parser.rs:92 | `peek(p)` succeeds exactly when `p` does, with `p`'s value, and never consumes |
| Nom.Preceded | src/parser.rs:92 | `preceded(p, q)` fails where `p` fails, with `p`'s remainder, and otherwise is `q` on what `p` left |
| Nom.ScanUntil | src/parser.rs:89-93 | `recognize(many_till(take(1), peek(p)))` stops at the first position where `p` succeeds and yields all characters before it, leaving the rest unconsumed; when `p` succeeds nowhere it fails with an empty remainder |
| Nom.ScanUntilStopsAt | src/parser.rs:89-93 | if `k` is the first position where `p` succeeds, the scan yields exactly the first `k` characters |
| Nom.Digit0Exact | src/parser.rs:40 | `digit0` on a digit run followed by a non-digit consumes exactly that run |
| Parser.DoubleUnderscorePrefix | src/parser.rs:23 | the input starts with `__` exactly when its first two characters are underscores |
| Parser.InternalTagBoundary | src/parser.rs:24-25 | a text enclosed as `t__rest` has no `__` starting inside `t` exactly when `t` has no `__` and does not end in `_` |
| Parser.EnclosedTag | src/parser.rs:23-25 | what `take_until("__")` takes after an opening `__` is an internal tag, and the input is the opening `__`, the tag, the closing `__` and the rest |
| Parser.ParseTagInternal | src/parser.rs:21-28 | succeeds exactly when the input starts with `__` and `__` occurs again later; it then returns the text between the two, which is an internal tag, and the rest after the closing `__`; each failure reports the remainder nom reports |
| Parser.ParseTagInternalOf | src/parser.rs:21-28 | `__t__rest` is read back as `t` with rest `rest` exactly when `t` is an internal tag |
| Parser.ParseSuffixBak | src/parser.rs:37-43 | succeeds exactly on `.bak` followed only by ASCII digits (possibly none), returning those digits and an empty rest; without `.bak` it fails at the input |
| Parser.ParseSuffix | src/parser.rs:53-59 | succeeds exactly on `.dat` alone (giving `None`) or on `.dat.bak` followed only by digits (giving `Some` of the digits), with an empty rest; input not starting with `.dat` fails at the input |
| Parser.ParseSuffixOf | src/save_info_struct.rs:44-47 | the suffix parser accepts the extension the formatter writes exactly when the backup id is all digits, and then gives back that backup id |
| Parser.MoreGroups | src/parser.rs:72 | the `(. digit1)*` part of `separated_list0` reads a maximal sequence of digit groups, each after a dot; it never stops in front of a dot and a digit and consumes nothing when it reads no group |
| Parser.DigitGroups | src/parser.rs:72 | `separated_list0(tag("."), digit1)` always succeeds with the maximal dot-separated digit groups, consumes exactly their text, and consumes nothing when no digit comes first |
| Parser.DottedAppend | src/parser.rs:72 | a digit group followed by dot-prefixed dotted digits is dotted digits |
| Parser.DotEachShape | src/parser.rs:72 | the text of dot-prefixed digit groups is empty exactly when there are none, and otherwise starts with a dot followed by dotted digits |
| Parser.JoinDotsShape | src/parser.rs:72 | the recognised text of one or more digit groups never starts or ends with `.` and never holds `..`; zero groups give the empty text |
| Parser.ParseVersion | src/parser.rs:67-75 | succeeds exactly when the input starts with `_`, and returns a version that is empty or dotted digits; the version is maximal, so no digit follows it and no dot-and-digit follows a non-empty one |
| Parser.RecognizedGroups | src/parser.rs:71-72 | `recognize` gives back exactly the text of the groups, which is a version and is empty exactly when there are no groups |
| Parser.LeadingGroup | src/parser.rs:72 | dotted digits start with a non-empty digit group, followed by nothing or by a dot and dotted digits |
| Parser.MoreGroupsOf | src/parser.rs:72 | on dot-prefixed dotted digits followed by a text not starting with a digit or dot-digit, the group reader stops exactly at that text |
| Parser.DigitGroupsOf | src/parser.rs:72 | on dotted digits followed by a text not starting with a digit or dot-digit, `separated_list0` stops exactly at that text |
| Parser.ParseVersionOf | src/parser.rs:67-75 | `_v rest` is read as version `v` with rest `rest` whenever `v` is a version and `rest` could not extend it |
| Parser.OptVersion | src/parser.rs:107 | `opt(parse_version)` never fails and reads a version exactly when the input starts with `_`; the version is empty or dotted digits and is followed by the rest; with no `_` it consumes nothing. `RoundTrip.OptVersionConsumes` gives the exact text consumed |
| Parser.VersionThenSuffix | src/parser.rs:92 | when the look-ahead `preceded(opt(parse_version), parse_suffix)` succeeds, it has read to the end of the input and its backup id is all digits. `LookaheadIsTail`, `TailIsLookahead` and `LookaheadAtIff` give the language it accepts |
| Parser.LookaheadIsTail | src/parser.rs:92 | when the look-ahead `preceded(opt(parse_version), parse_suffix)` succeeds, the text is a tail: a suffix, or `_`, a version and a suffix |
| Parser.SuffixTextStart | src/parser.rs:55 | a suffix starts with `.d`, so it can neither extend a version nor be read as one |
| Parser.SuffixIsLookahead | src/parser.rs:92 | the look-ahead succeeds on a suffix alone |
| Parser.VersionSuffixIsLookahead | src/parser.rs:92 | the look-ahead succeeds on `_`, a version and a suffix |
| Parser.TailIsLookahead | src/parser.rs:92 | the look-ahead succeeds on every tail; with `LookaheadIsTail` it succeeds exactly on the tails |
| Parser.LookaheadAtIff | src/parser.rs:92 | at every position, the look-ahead succeeds exactly when a tail starts there |
| Parser.ParseUserTag | src/parser.rs:84-96 | requires `user`; returns the shortest text after it at whose end a tail starts, and leaves that tail unconsumed; fails at the input without `user`, and with an empty remainder when no tail starts anywhere |
| Parser.ParseUserTagAt | src/parser.rs:84-96 | conversely, if `k` is the first position after `user` where a tail starts, the user tag is exactly the text up to `k` |
| Parser.Parse | src/parser.rs:98-121 | when the whole name parses, the remainder is empty |
| SaveInfo.New | src/save_info_struct.rs:13-20 | the record holds the four arguments verbatim, `None`/`Some` as given |
| SaveInfo.VersionText | src/save_info_struct.rs:31-35 | states only the shape of the version part: it is empty exactly without a version, and otherwise starts with `_` and is one character longer than the version. Its content in the name is stated by `SaveInfo.FormatVersionInserted`, and `RoundTrip.OptVersionConsumes` ties it to `opt(parse_version)` |
| SaveInfo.ExtText | src/save_info_struct.rs:44-47 | states only the shape of the extension: it starts with `.d`, has length 4 exactly without a backup id, and with one is eight characters longer than the id. Its content in the name is stated by `SaveInfo.FormatEnd`, and `RoundTrip.SuffixConsumes` and `Parser.ParseSuffixOf` tie it to `parse_suffix` |
| SaveInfo.InternalText | src/save_info_struct.rs:50-53 | states only the shape of the internal marker: it is empty exactly without an internal tag, and otherwise starts with `__` and is four characters longer than the tag. Its content in the name is stated by `SaveInfo.FormatStart`, and `RoundTrip.OptInternalConsumes` ties it to `opt(parse_tag_internal)` |
| SaveInfo.Format | src/save_info_struct.rs:23-56 | no contract of its own; its layout is stated by `FormatLayout`, `FormatStart`, `FormatEnd` and `FormatVersionInserted`, its round trips with `parse` by `RoundTrip.FormatParse`, `RoundTrip.ParseFormat` and `RoundTrip.ParseIff` |
| SaveInfo.FormatLayout | src/save_info_struct.rs:55 | the name has `user` right after the internal marker and the user tag right after `user` |
| SaveInfo.FormatStart | src/save_info_struct.rs:50-55 | the name starts with `user` without an internal tag, and with `__t__user` with internal tag `t` |
| SaveInfo.FormatEnd | src/save_info_struct.rs:44-47 | the name ends in `.dat` without a backup id, and in `.dat.bak` and the id with one |
| SaveInfo.FormatVersionInserted | src/save_info_struct.rs:31-35 | a present version `v` writes `_` and `v` right after the user tag; the rest of the name is what it is without a version |
| SaveInfo.FormatBackupDistinct | src/save_info_struct.rs:44-47 | an empty backup id `Some("")` and no backup id give different names |
| RoundTrip.OptInternalConsumes | src/parser.rs:101 | `opt(parse_tag_internal)` always succeeds and consumes exactly the internal marker the formatter writes for its value (src/save_info_struct.rs:50-53) |
| RoundTrip.OptVersionConsumes | src/parser.rs:107 | `opt(parse_version)` always succeeds and consumes exactly the version part the formatter writes for its value (src/save_info_struct.rs:31-35) |
| RoundTrip.SuffixConsumes | src/parser.rs:110 | a successful suffix parse consumed exactly the extension the formatter writes for its value (src/save_info_struct.rs:44-47) |
| RoundTrip.ExtIsSuffixText | src/save_info_struct.rs:44-47 | the extension written for an all-digit backup id is in the suffix language |
| RoundTrip.ParseFailsOnlyInUserTag | src/parser.rs:98-121 | `parse` fails exactly when the user-tag step fails: steps 3 and 4 read again what the look-ahead accepted, so they cannot fail and yield the look-ahead's backup id |
| RoundTrip.FormatParse | src/parser.rs:124-144 | whenever `parse` accepts a name, the remainder is empty and formatting the record reproduces the name exactly |
| RoundTrip.UserTagEndsFirst | src/parser.rs:88-93 | no tail starts strictly inside the user tag that `parse_user_tag` returns |
| RoundTrip.ParseCanonical | src/parser.rs:98-121 | every record `parse` returns is canonical: each field is in its grammar and no tail starts inside the user tag |
| RoundTrip.CanonicalTail | src/save_info_struct.rs:55 | what the formatter writes after a canonical user tag is a tail |
| RoundTrip.OptVersionOfTail | src/parser.rs:107 | on what follows a canonical user tag, `opt(parse_version)` gives back the record's version and leaves its extension |
| RoundTrip.UserTagOf | src/parser.rs:84-96 | `user`, a tag and a tail, with no tail starting inside the tag, give back that tag and leave the tail |
| RoundTrip.UserTagOfFormat | src/parser.rs:84-96 | on a formatted canonical record, `parse_user_tag` gives back the record's tag |
| RoundTrip.InternalOfFormat | src/parser.rs:101 | on a formatted canonical record, `opt(parse_tag_internal)` gives back the record's internal tag |
| RoundTrip.ParseFormat | src/save_info_struct.rs:23-56 | `parse` of the name of a canonical record gives back that record with an empty remainder |
| RoundTrip.ParseIff | src/parser.rs:98-121 | `parse(s)` yields record `r` with empty remainder exactly when `r` is canonical and formats to `s` |
| RoundTrip.TailStart | src/parser.rs:92 | a tail starts with `.dat`, or with `_` followed by a digit or `.` |
| RoundTrip.PlainTagEndsFirst | src/parser.rs:88-93 | a user tag without `_` and `.` never holds the start of a tail |
| RoundTrip.NoTailBetween | src/parser.rs:92 | no tail starts at positions holding neither `.dat…` nor `_` followed by a digit or `.` |
| RoundTrip.NoDotNoTail | src/parser.rs:88-93 | every tail holds a `.`, so no tail starts in a text without one |
| RoundTrip.TagWithVersionShapeIsNotKept | src/parser.rs:88-93 | a versionless record whose tag is a plain part (no `_`, no `.`), `_` and digits, and whose internal tag and backup id are well-formed, reads back as the plain tag with those digits as version, so it is not kept |
| RoundTrip.UnderscoreShift | src/save_info_struct.rs:50-53 | an internal tag ending in `_` writes the same text as the tag without it followed by `___` |
| RoundTrip.UnderscoreAfterMarker | src/parser.rs:98-104 | the marker of an internal tag `t` (no `__`, no final `_`) followed by `_` instead of `user` makes `parse` fail |
| RoundTrip.InternalTagEndingInUnderscoreIsRejected | src/parser.rs:24 | a record whose internal tag is `t_`, where `t` is itself an internal tag, formats to a name that `parse` rejects |
| FormatExamples.FormatBasic | src/save_info_struct.rs:71 | the record with tag `1` and nothing else formats to `user1.dat` |
| FormatExamples.FormatVersion | src/save_info_struct.rs:79 | tag `4` with version `1.0.28650` formats to `user4_1.0.28650.dat` |
| FormatExamples.FormatVersionBackup | src/save_info_struct.rs:86 | the name also gets `.bak13` when the backup id is `13` |
| FormatExamples.FormatVersionEmptyBackup | src/save_info_struct.rs:93 | an empty backup id still writes `.dat.bak` |
| FormatExamples.FormatBackupOnly | src/save_info_struct.rs:101 | tag `2` with backup id `15` formats to `user2.dat.bak15` |
| FormatExamples.FormatEmptyBackupOnly | src/save_info_struct.rs:109 | tag `2` with an empty backup id formats to `user2.dat.bak` |
| FormatExamples.FormatInternalTag | src/save_info_struct.rs:116 | internal tag `pin` puts `__pin__` in front of the name |
| ParseExamples.SuffixDat | src/parser.rs:154 | `.dat` gives no backup id |
| ParseExamples.SuffixEmptyBackup | src/parser.rs:155 | `.dat.bak` gives the empty backup id |
| ParseExamples.SuffixBackup | src/parser.rs:156 | `.dat.bak123` gives backup id `123` |
| ParseExamples.SuffixError | src/parser.rs:157 | `err` fails at `err` itself |
| ParseExamples.SuffixBadBackup | src/parser.rs:39-41 | `.dat.bakx` fails: a non-digit after `.bak` is not read as no backup |
| ParseExamples.SuffixBakBackup | src/parser.rs:150 | `.bak123` gives `123` |
| ParseExamples.SuffixBakEmpty | src/parser.rs:151 | `.bak` gives the empty id |
| ParseExamples.TagInternalAlone | src/parser.rs:18 | `__some_attr__` gives internal tag `some_attr` and an empty rest |
| ParseExamples.TagInternalBeforeUser | src/parser.rs:19 | `__sometag__user2.dat` gives `sometag` and rest `user2.dat` |
| ParseExamples.VersionHollowKnightSilksong | src/parser.rs:64 | `_1.0.28891` gives version `1.0.28891` |
| ParseExamples.VersionHollowKnight | src/parser.rs:65 | `_1.2.3.28891` gives version `1.2.3.28891` |
| ParseExamples.ParseBasic | src/parser.rs:137 | `user1.dat` parses to tag `1` and nothing else |
| ParseExamples.SuffixTails | src/parser.rs:165-180 | `.dat`, `.dat.bak` and `.dat.bak123` are tails |
| ParseExamples.VersionTails | src/parser.rs:166-178 | `_1.0.28891.dat` and `_1.0.28891.dat.bak123` are tails |
| ParseExamples.SymbolTagEndsFirst | src/parser.rs:174-178 | no tail starts inside the user tag `a-b_c__d.e`, whatever follows it |
| ParseExamples.UserTagBasic | src/parser.rs:165 | `user1.dat` gives user tag `1` and rest `.dat` |
| ParseExamples.UserTagWithVersion | src/parser.rs:166 | `user4_1.0.28891.dat` gives user tag `4` and leaves the version |
| ParseExamples.UserTagWithSymbols | src/parser.rs:174 | `usera-b_c__d.e.dat` gives user tag `a-b_c__d.e` |
| ParseExamples.UserTagBeforeBackup | src/parser.rs:167-168 | `user1.dat.bak` and `user1.dat.bak123` give user tag `1` and leave the suffix |
| ParseExamples.UserTagBeforeVersionAndBackup | src/parser.rs:169 | `user4_1.0.28891.dat.bak123` gives user tag `4` and leaves version and suffix |
| ParseExamples.UserTagWord | src/parser.rs:173 | `userTest.dat` gives user tag `Test` |
| ParseExamples.UserTagSymbolsWithTails | src/parser.rs:175-178 | `a-b_c__d.e` is the user tag before each of the version and backup tails |
| ParseExamples.UserTagEndingInDat | src/parser.rs:180 | `user1.dat.dat` gives user tag `1.dat`: only the last `.dat` ends the tag |
| ParseExamples.LongTagEndsFirst | src/parser.rs:142-143 | no tail starts inside the user tag `aaa_bbb-ccc.ddd` of the two long test names |
| ParseExamples.ParseWithVersion | src/parser.rs:138 | `user2_1.0.28891.dat` parses and formats back to itself |
| ParseExamples.ParseWithBackup | src/parser.rs:139 | `user2.dat.bak123` parses and formats back to itself |
| ParseExamples.LongName | src/parser.rs:142-143 | a long name with every field present parses to its four fields |
| ParseExamples.ParseAllFields | src/parser.rs:142 | `__pin__useraaa_bbb-ccc.ddd_1.0.28891.dat.bak123` parses to its four fields |
| ParseExamples.ParseAllFieldsLegacy | src/parser.rs:143 | `__aa-bb_cc.dd__useraaa_bbb-ccc.ddd_1.2.3.28891.dat.bak123` parses to its four fields |
| ParseExamples.ParseMissingSuffix | src/parser.rs:86-93 | `usersomething` is rejected because nothing ends the user tag |
| ParseExamples.ParseEmptyTag | src/parser.rs:90-92 | `user.dat` parses with an empty user tag |
| ParseExamples.ParseEmptyVersion | src/parser.rs:72 | `user1_.dat` parses with the empty version `Some("")` |
| ParseExamples.ParseEmptyInternalTag | src/parser.rs:24 | `____user1.dat` parses with the empty internal tag `Some("")` |

## Left out

- nom's error kinds and the `IResult`/`nom::Err` wrapping are not modelled. A failure carries only the remainder nom reports with it, so the `ErrorKind::Tag` part of the `err` test reduces to "fails at `err`".
- `fmt::Formatter` and `write!` are left out. `Display::fmt` is the function `SaveInfo.Format`, which returns the string, and it cannot fail.
- UTF-8 is not modelled. Names are sequences of characters, and `take(1)` takes one character, as it does on `&str`.
- nom's `opt`, `peek` and `preceded` take the parser they wrap as an argument, as nom's do, but run it on the input at once instead of returning a new parser. Their contracts state nom's semantics for any parser. How the grammar's instances behave is proved separately, in `Parser.OptVersion`, `RoundTrip.OptVersionConsumes` and the look-ahead lemmas.
- Nom.ScanUntil is `many_till` specialised to `take(1)` with a `peek` terminator, the only way the source uses it.
- The reverse law `parse(format(r)) == r` does not hold for every record. It is stated only for canonical records (`RoundTrip.ParseFormat`, `RoundTrip.ParseIff`). `RoundTrip.TagWithVersionShapeIsNotKept` and `RoundTrip.InternalTagEndingInUnderscoreIsRejected` show records for which it fails.
- The unit tests' `match_checker` helper, `unwrap` and `to_string` are not modelled. Their checks are stated directly as lemmas about `Parse` and `Format`.
- ParseExamples: several test names are written as concatenations of literal pieces that spell the test's string, such as `".dat.bak" + "123"` for `.dat.bak123`. The string is the same; the doc comment of each lemma gives it in one piece.
