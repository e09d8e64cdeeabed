# Front controller of the Address For All site, modelled in Dafny

`web/index.php` opens with a small front controller. It reads the `uri`
request parameter and trims its slashes. If the parameter names one of the
association's legal documents as a `urn:lex:` identifier, the controller
serves that document and ends the request: a PDF is streamed after a
`Content-Type: application/pdf` header, and an HTML fragment is included as
the whole response. Any other request falls through to the page template.
The template always includes the content of the page `local`, whatever
name the controller computed.

This project models that controller as pure functions over strings. It
proves what the controller decides for every possible request.

- `Wrappers` (`wrappers.dfy`): the `Option` type. An absent `uri` parameter
  is `None`.
- `SlashTrim` (`slash_trim.dfy`): `trim($s, '/')`. It is defined through the
  lengths of the leading and the trailing run of slashes, and it is
  characterised as the unique slice with only slashes around it and no slash
  at its edges.
- `UrnLex` (`urn_lex.dfy`): `preg_match('/urn:lex:(.+)$/', …)` and its
  capture `$m[1]`, under PCRE's default newline rules. `.` does not match a
  line feed. `$` matches at the end or just before a final line feed. The
  search returns the leftmost match.
- `UrnTable` (`urn_table.dfy`): the constant `$urnRegexes` table, its four
  alias groups and its shape.
- `Resolver` (`resolver.dfy`): the decision of one request (`Serve(path,
  kind)` or `FallThrough(pageName, includePath)`) and the facts about it.
  - `ResolveWith` takes the table as a parameter, so its general lemmas hold
    for any table.
  - `Resolve` is `ResolveWith` applied to `$urnRegexes`.
- `Scenarios` (`scenarios.dfy`): worked requests.

Facts about the code that the model makes explicit:

- Line 18 uses PHP's falsiness test, so a trimmed `"0"` is also replaced by
  `"home"` and never reaches the pattern (`Resolver.DefaultName`,
  `Scenarios.ScenarioZero`).
- The table at lines 5–16 has ten keys (`UrnTable.TableSize`).
- The pattern follows PCRE's default newline rules.
  `UrnLex.NewlineFreeMatch` gives the simpler rule for input without line
  feeds.

The three long keys are written in the model as `Authority + ":…"`, where
`Authority` is `br;sp;sao.paulo:associacao;dns-addressforall.org`. These
are the same strings as in the source. In the same way, the scenarios write
each identifier as `"urn:lex:" + key`. This spares the verifier from
reasoning about a long literal one character at a time.

## Model

| member | source | states |
|---|---|---|
| SlashTrim.Leading | web/index.php:4 | the count is the length of the run of slashes `s` starts with: every position before it is a slash and the one at it is not |
| SlashTrim.Trailing | web/index.php:4 | the count is the length of the run of slashes `s` ends with |
| SlashTrim.Trim | web/index.php:4 | the trimmed text is no longer than the input and neither starts nor ends with a slash |
| SlashTrim.TrimUnique | web/index.php:4 | any slice with only slashes before and after it, and no slash at its own edges, is exactly what trim returns: trim removes all leading and trailing slashes and nothing else |
| SlashTrim.TrimIdempotent | web/index.php:4 | trimming the trimmed name again changes nothing |
| SlashTrim.TrimAroundText | web/index.php:4 | trimming `p + q + slashes` keeps `p` without its leading slashes, then `q` untouched, when `q` has no slash at its edges |
| Resolver.RequestedName | web/index.php:4 | the page name has no slash at its edges, is "" when `uri` is absent, and is no longer than the parameter |
| Resolver.Falsy | web/index.php:18 | PHP's `!` on a string: true exactly for "" and "0" |
| Resolver.DefaultName | web/index.php:18 | the result is never PHP-false; it is the name itself, or "home" exactly when the name was "" or "0" |
| UrnLex.MatchesAt | web/index.php:19 | `urn:lex:(.+)$` matches from start position `i`: the marker is there and the rest is non-empty without a line feed, or such a text followed by one final line feed |
| UrnLex.CaptureAt | web/index.php:19 | the capture of a match at `i` is non-empty and has no line feed, and the subject is the text before `i`, the marker, the capture and at most one final line feed |
| UrnLex.LeftmostFrom | web/index.php:19 | the position returned is a match and no earlier position from `i` on matches; None means no position matches |
| UrnLex.UrnMatch | web/index.php:19 | the match succeeds exactly when some position matches; the capture is non-empty and has no line feed; a subject without `urn:lex:` never matches |
| UrnLex.NewlineFreeMatch | web/index.php:19 | on input without line feeds the capture is everything after the first `urn:lex:`, and there is no match when nothing follows it |
| UrnLex.MatchAfterPrefix | web/index.php:19 | text before the marker is ignored: `p + "urn:lex:" + k` captures exactly `k` when `p` holds no marker |
| UrnLex.MarkerFreeSlice | web/index.php:19 | a slice of marker-free text is marker-free, so trimming cannot create a match |
| UrnTable.Table | web/index.php:5-16 | the `$urnRegexes` literal: the ten keys of lines 6–15, each mapped to the path on its line |
| UrnTable.AliasGroupsDisjoint | web/index.php:5-16 | no key belongs to two alias groups |
| UrnTable.TableKeys | web/index.php:5-16 | the table's keys are exactly the union of the four alias groups |
| UrnTable.AliasGroupSizes | web/index.php:6-15 | the alias groups hold five, two, one and two keys |
| UrnTable.TableSize | web/index.php:5-16 | the table has ten keys |
| UrnTable.TableAliases | web/index.php:5-16 | the keys at lines 6–10 map to the HTML statute, 11–12 to the HTML collection, 13 to the signed collection PDF and 14–15 to the signed statute PDF; no other artifact is named |
| UrnTable.TableKeysPlain | web/index.php:5-16 | every key is non-empty, has no line feed and does not end in a slash, so both the pattern and the trim leave it whole |
| Resolver.LastThree | web/index.php:22 | `substr($f, -3)` is the last three characters, or the whole string when it is shorter |
| Resolver.PathKind | web/index.php:22 | the PDF branch is taken exactly when the path has at least three characters and ends in lower-case "pdf" |
| Resolver.Headers | web/index.php:22-23 | the controller sends `Content-Type: application/pdf` exactly for a served PDF, and no header otherwise |
| Resolver.ContentInclude | web/index.php:116 | the content include is "default/", then the page name, then ".inc.php", and nothing else |
| Resolver.ResolveWith | web/index.php:3-29 | an artifact is served exactly when the trimmed name is not PHP-false, matches the pattern and its capture is a table key; the served path is the table's entry for the capture and its kind follows its suffix; every fall-through is page "local" with "default/local.inc.php"; a PHP-false name always falls through |
| Resolver.Resolve | web/index.php:3-29 | the deployed controller, with the table of lines 5–16: it serves only one of the four documents of the table, and streams exactly the two signed PDFs |
| Resolver.UrnTrim | web/index.php:4 | an identifier with text before the marker and slashes after the key trims to the prefix without its leading slashes, the marker and the key |
| Resolver.ResolveUrn | web/index.php:4-21 | for `prefix + "urn:lex:" + key + slashes` with a marker-free prefix, the key alone decides: its table entry is served if it has one, otherwise the request falls through |
| Resolver.ServesKey | web/index.php:19-21 | in any table, `urn:lex:<key>` serves that key's entry |
| Resolver.ServesEveryKey | web/index.php:5-27 | each of the ten identifiers `urn:lex:<key>` serves its own artifact with the kind its path gives |
| Resolver.TableKinds | web/index.php:13-15 | among the table's entries, exactly the keys at lines 13–15 take the PDF branch |
| Resolver.ArtifactKinds | web/index.php:22-27 | the two `.htm` artifacts are included and the two `.pdf` ones are streamed |
| Resolver.OnlySlashesIsHome | web/index.php:18 | a parameter of slashes only trims to "", becomes "home" and serves nothing |
| Resolver.NoMarkerFallsThrough | web/index.php:19-29 | a parameter without `urn:lex:` never serves an artifact |
| Scenarios.ScenarioEstatuto | web/index.php:9-27 | `urn:lex::estatuto` includes the HTML statute |
| Scenarios.ScenarioColecaoPdf | web/index.php:13-25 | `urn:lex::colecao:2020-04-03;v7.reg~pdf.assign` streams the signed collection after the PDF header |
| Scenarios.ScenarioAbsent | web/index.php:115-116 | an absent parameter becomes "home", but the template renders page "local" |
| Scenarios.ScenarioUnknownKey | web/index.php:19-29 | `urn:lex:unknown:key` matches with capture `unknown:key`, which misses the table, so the request falls through |
| Scenarios.ScenarioPlainPath | web/index.php:19-29 | `some/random/path` does not match and falls through |
| Scenarios.ScenarioZero | web/index.php:4-18 | `/0/` trims to "0", which PHP treats as false, so it becomes "home" and falls through |
| Scenarios.PathKindCaseSensitive | web/index.php:22 | the suffix test is case-sensitive and needs all three characters |

A served artifact ends the request (line 28). In the model, `Serve` and
`FallThrough` are distinct constructors of one `Decision`, so no page
chrome can follow a served artifact. Each request has exactly one decision:
`Resolve` is a function. The override at line 115 throws away the name the
controller computed ("home" or the trimmed parameter). It is modelled as
written, so every fall-through renders page "local".

## Left out

- The effects `header`, `readfile`, `include`, `include_once` and `exit`
  (lines 23–28, 117): they are HTTP and file I/O. The model records only
  which artifact, which branch and which header are chosen.
- What happens when an artifact file is missing: it is a runtime I/O failure
  that the code does not handle.
- `api_p1` (line 3): it is trimmed and never used.
- The HTML page chrome (lines 32–136): static markup.
- The client-side script (lines 137–172): `validaEmail` relies on the
  browser's regular expressions, and `enviarEmail` and the form handler are
  AJAX calls and UI.
- A `uri` parameter sent as an array (`uri[]=…`): the input is modelled as
  an optional string.
- PHP strings are bytes. Here each `char` stands for one byte, which changes
  nothing for the ASCII pattern, the slashes and the keys.
