/** The front controller at the top of web/index.php: it trims the `uri`
    request parameter, recognises `urn:lex:` identifiers of the association's
    legal documents, and either serves the document the identifier names (a
    PDF streamed as is, or an HTML fragment included as the whole response)
    or falls through to the page template, whose content include is always
    that of the page "local". The effects (sending a header, reading or
    including a file, ending the request) are modelled by the Decision they
    carry out. */
module Resolver {
  import opened Wrappers
  import opened SlashTrim
  import opened UrnLex
  import opened UrnTable

  /** How a served artifact is delivered. */
  datatype ArtifactKind =
    | Pdf      // `Content-Type: application/pdf`, then the file's bytes
    | Include  // the file is included as PHP/HTML and is the whole response

  /** What the controller does with one request. */
  datatype Decision =
    | Serve(path: string, kind: ArtifactKind)
      // the request ends after the artifact; no page chrome follows
    | FallThrough(pageName: string, includePath: string)
      // the page template is rendered around `includePath`

  /** The page whose content the template always includes on fall-through. */
  const LocalPage: string := "local"

  /** `$nomeDaPagina` as first computed: the `uri` parameter trimmed of
      slashes, or the empty string when the parameter is absent. */
  function RequestedName(uri: Option<string>): (name: string)
    ensures NoEdgeSlash(name)
    ensures uri.None? ==> name == ""
    ensures uri.Some? ==> |name| <= |uri.value|
  {
    match uri
    case None => ""
    case Some(s) => Trim(s)
  }

  /** PHP's `!$s` for a string: only "" and "0" convert to false. */
  predicate Falsy(s: string) {
    s == "" || s == "0"
  }

  /** `if (!$nomeDaPagina) $nomeDaPagina = 'home';`: a name PHP treats as
      false is replaced by "home", any other is kept. */
  function DefaultName(name: string): (r: string)
    ensures !Falsy(r)
    ensures r == name || (Falsy(name) && r == "home")
  {
    if Falsy(name) then "home" else name
  }

  /** `substr($f, -3)`: the last three characters, or the whole string when
      it is shorter than that. */
  function LastThree(f: string): (r: string)
    ensures |r| == if |f| < 3 then |f| else 3
    ensures f == f[..|f| - |r|] + r
  {
    if |f| < 3 then f else f[|f| - 3..]
  }

  /** `substr($f, -3) == 'pdf'` picks the PDF branch. */
  function PathKind(f: string): (k: ArtifactKind)
    ensures k == Pdf <==> |f| >= 3 && f[|f| - 3..] == "pdf"
  {
    if LastThree(f) == "pdf" then Pdf else Include
  }

  /** `"default/$nomeDaPagina.inc.php"`. */
  function ContentInclude(page: string): (path: string)
    ensures |path| == |page| + 16
    ensures path[..8] == "default/" && path[|path| - 8..] == ".inc.php"
    ensures path[8..|path| - 8] == page
  {
    "default/" + page + ".inc.php"
  }

  /** The headers the controller sends itself before the response body. */
  function Headers(d: Decision): (h: seq<string>)
    ensures h == [] || h == ["Content-Type: application/pdf"]
    ensures h != [] <==> d.Serve? && d.kind == Pdf
  {
    if d.Serve? && d.kind == Pdf then ["Content-Type: application/pdf"] else []
  }

  /** The identifier of a request resolves to an entry of `table`. */
  predicate Hit(table: map<string, string>, uri: Option<string>) {
    var name := RequestedName(uri);
    !Falsy(name) && UrnMatch(name).Some? && UrnMatch(name).value in table
  }

  /** web/index.php from line 3 to the content include at line 116, for a
      given identifier table. */
  function ResolveWith(table: map<string, string>, uri: Option<string>): (d: Decision)
    ensures d.Serve? <==> Hit(table, uri)
    ensures d.Serve? ==> d.path == table[UrnMatch(RequestedName(uri)).value]
    ensures d.Serve? ==> d.path in table.Values && d.kind == PathKind(d.path)
    ensures d.FallThrough? ==> d == FallThrough("local", "default/local.inc.php")
    ensures Falsy(RequestedName(uri)) ==> d.FallThrough?
  {
    var name := RequestedName(uri);
    var fallThrough := FallThrough(LocalPage, ContentInclude(LocalPage));
    if Falsy(name) then
      fallThrough
    else
      match UrnMatch(name)
      case Some(key) =>
        if key in table then Serve(table[key], PathKind(table[key])) else fallThrough
      case None => fallThrough
  }

  /** The controller as deployed, with `$urnRegexes`: it only ever serves
      one of the four documents of the table, and streams exactly the two
      signed PDFs. */
  function Resolve(uri: Option<string>): (d: Decision)
    ensures d.Serve? ==> d.path in {EstatutoHtml, ColecaoHtml, ColecaoPdf, EstatutoPdf}
    ensures d.Serve? ==> (d.kind == Pdf <==> d.path == ColecaoPdf || d.path == EstatutoPdf)
  {
    TableAliases();
    ArtifactKinds();
    ResolveWith(Table, uri)
  }

  /** Exactly the three entries whose paths end in "pdf" take the PDF
      branch; the other seven are included. */
  lemma TableKinds()
    ensures forall k :: k in Table ==> (PathKind(Table[k]) == Pdf <==> k in ColecaoPdfKeys || k in EstatutoPdfKeys)
  {
    TableKeys();
    TableAliases();
    ArtifactKinds();
  }

  /** The two `.htm` artifacts are included, the two `.pdf` ones streamed. */
  lemma ArtifactKinds()
    ensures PathKind(EstatutoHtml) == Include && PathKind(ColecaoHtml) == Include
    ensures PathKind(ColecaoPdf) == Pdf && PathKind(EstatutoPdf) == Pdf
  {
  }

  /** The name a `urn:lex:` identifier trims to: the prefix loses its
      leading slashes and the slashes after the key are dropped. */
  lemma UrnTrim(prefix: string, key: string, slashes: string)
    requires key != [] && key[|key| - 1] != '/'
    requires AllSlashes(slashes)
    ensures RequestedName(Some(prefix + Marker + key + slashes)) == prefix[Leading(prefix)..] + Marker + key
  {
    var urn := Marker + key;
    assert prefix + Marker + key + slashes == prefix + urn + slashes;
    assert urn[0] == 'u' && urn[|urn| - 1] == key[|key| - 1];
    TrimAroundText(prefix, urn, slashes);
    assert prefix[Leading(prefix)..] + urn == prefix[Leading(prefix)..] + Marker + key;
  }

  /** The general case of a `urn:lex:` identifier: whatever stands before the
      marker (if it holds no marker itself, and slashes included) and however
      many slashes follow, the suffix `key` alone decides, and it is served
      exactly when it is a table key. */
  lemma ResolveUrn(table: map<string, string>, prefix: string, key: string, slashes: string)
    requires MarkerFree(prefix)
    requires PlainKey(key)
    requires AllSlashes(slashes)
    ensures ResolveWith(table, Some(prefix + Marker + key + slashes)) ==
      if key in table then Serve(table[key], PathKind(table[key]))
      else FallThrough("local", "default/local.inc.php")
  {
    var kept := prefix[Leading(prefix)..];
    UrnTrim(prefix, key, slashes);
    MarkerFreeSlice(prefix, Leading(prefix), |prefix|);
    assert prefix[Leading(prefix)..|prefix|] == kept;
    MatchAfterPrefix(kept, key);
    assert |kept + Marker + key| > 1;
  }

  /** In any table, `urn:lex:<key>` serves the entry of `key`. */
  lemma ServesKey(table: map<string, string>, key: string)
    requires key in table && PlainKey(key)
    ensures ResolveWith(table, Some(Marker + key)) == Serve(table[key], PathKind(table[key]))
  {
    var s := Marker + key;
    assert MarkerFree([]);
    assert s == [] + Marker + key + [];
    ResolveUrn(table, [], key, []);
  }

  /** Each of the ten identifiers `urn:lex:<key>` serves its own artifact. */
  lemma ServesEveryKey(key: string)
    requires key in Table
    ensures Resolve(Some(Marker + key)) == Serve(Table[key], PathKind(Table[key]))
  {
    TableKeysPlain();
    ServesKey(Table, key);
  }

  /** A parameter made only of slashes (or empty) trims to the empty name,
      which line 18 turns into "home" without trying the pattern. */
  lemma OnlySlashesIsHome(table: map<string, string>, s: string)
    requires AllSlashes(s)
    ensures RequestedName(Some(s)) == ""
    ensures DefaultName(RequestedName(Some(s))) == "home"
    ensures ResolveWith(table, Some(s)) == FallThrough("local", "default/local.inc.php")
  {
    assert s[..0] == [] && s[0..] == s;
    TrimUnique(s, 0, 0);
  }

  /** A parameter without `urn:lex:` in it never serves an artifact. */
  lemma NoMarkerFallsThrough(table: map<string, string>, s: string)
    requires MarkerFree(s)
    ensures ResolveWith(table, Some(s)) == FallThrough("local", "default/local.inc.php")
  {
    var i := Leading(s);
    if i < |s| {
      MarkerFreeSlice(s, i, |s| - Trailing(s));
    }
  }
}
