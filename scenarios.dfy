/** The request scenarios of the controller, worked through the model.
    Each identifier is written as `"urn:lex:" + key`, the same string as
    the single literal, so that the proofs reuse the general lemmas about
    the marker and the key instead of unfolding the literal character by
    character. */
module Scenarios {
  import opened Wrappers
  import opened SlashTrim
  import opened UrnLex
  import opened UrnTable
  import opened Resolver

  /** `uri=urn:lex::estatuto` includes the HTML statute. */
  lemma ScenarioEstatuto()
    ensures Resolve(Some("urn:lex:" + ":estatuto")) == Serve(EstatutoHtml, Include)
  {
    ServesEveryKey(":estatuto");
    assert PathKind(EstatutoHtml) == Include;
  }

  /** `uri=urn:lex::colecao:2020-04-03;v7.reg~pdf.assign` streams the signed
      collection as a PDF, after its content-type header. */
  lemma ScenarioColecaoPdf()
    ensures Resolve(Some("urn:lex:" + ":colecao:2020-04-03;v7.reg~pdf.assign")) == Serve(ColecaoPdf, Pdf)
    ensures Headers(Resolve(Some("urn:lex:" + ":colecao:2020-04-03;v7.reg~pdf.assign"))) == ["Content-Type: application/pdf"]
  {
    ServesEveryKey(":colecao:2020-04-03;v7.reg~pdf.assign");
    assert PathKind(ColecaoPdf) == Pdf;
  }

  /** With no `uri` parameter the template renders the "local" page, not
      "home". */
  lemma ScenarioAbsent()
    ensures DefaultName(RequestedName(None)) == "home"
    ensures Resolve(None) == FallThrough("local", "default/local.inc.php")
  {
  }

  /** `uri=urn:lex:unknown:key` matches the pattern but misses the table. */
  lemma ScenarioUnknownKey()
    ensures UrnMatch("urn:lex:" + "unknown:key") == Some("unknown:key")
    ensures Resolve(Some("urn:lex:" + "unknown:key")) == FallThrough("local", "default/local.inc.php")
  {
    var key := "unknown:key";
    assert NoNewline(key);
    assert MarkerFree([]);
    MatchAfterPrefix([], key);
    assert [] + Marker + key == "urn:lex:" + key;
    assert key !in Table;
    ResolveUrn(Table, [], key, []);
    assert [] + Marker + key + [] == "urn:lex:" + key;
  }

  /** `uri=some/random/path` does not match the pattern. */
  lemma ScenarioPlainPath()
    ensures Resolve(Some("some/random/path")) == FallThrough("local", "default/local.inc.php")
  {
    MarkerFreeWithoutU("some/random/path");
    NoMarkerFallsThrough(Table, "some/random/path");
  }

  /** `uri=/0/` trims to "0", which PHP treats as false: it becomes "home". */
  lemma ScenarioZero()
    ensures RequestedName(Some("/0/")) == "0"
    ensures DefaultName(RequestedName(Some("/0/"))) == "home"
    ensures Resolve(Some("/0/")).FallThrough?
  {
    var s := "/0/";
    assert s == "/" + "0" + "/";
    TrimAroundText("/", "0", "/");
    assert Leading("/") == 1;
  }

  /** The PDF test is on the exact lower-case suffix "pdf". */
  lemma PathKindCaseSensitive()
    ensures PathKind("x.pdf") == Pdf && PathKind("pdf") == Pdf
    ensures PathKind("x.Pdf") == Include && PathKind("x.PDF") == Include
    ensures PathKind("x.htm") == Include && PathKind("df") == Include
  {
  }
}
