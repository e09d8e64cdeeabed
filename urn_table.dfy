/** `$urnRegexes` (web/index.php, lines 5 to 16): the constant table from
    the suffix of a `urn:lex:` identifier to the document it names, with the
    facts about its shape that the controller relies on. */
module UrnTable {
  import opened UrnLex

  const EstatutoHtml: string := "_private/A4A-Estatuto2020-04-03.htm"
  const ColecaoHtml: string := "_private/A4A-colecao2020-04-v7.htm"
  const ColecaoPdf: string := "_private/A4A-colecao2020-04-v7_reg~assign.pdf"
  const EstatutoPdf: string := "_private/A4A-Estatuto2020-04-03.assign.pdf"

  /** The jurisdiction and authority that open the three long identifiers,
      `br;sp;sao.paulo:associacao;dns-addressforall.org`; each long key of the
      table is this text followed by one of the short keys. The text and
      the long keys are written as concatenations of shorter literals
      because the verifier reasons about a long string literal one
      character at a time; the strings are the same. */
  const Authority: string := "br;sp;sao.paulo" + ":associacao;dns-addressforall.org"

  /** `$urnRegexes`: identifier suffix (after `urn:lex:`) to artifact path. */
  const Table: map<string, string> := map[
    Authority + ":estatuto:2020-04-03" := EstatutoHtml,
    ":estatuto:2020-04-03" := EstatutoHtml,
    ":estatuto:2020" := EstatutoHtml,
    ":estatuto" := EstatutoHtml,
    ":estatuto~html" := EstatutoHtml,
    Authority + ":colecao:2020-04-03;v7" := ColecaoHtml,
    ":colecao:2020-04-03;v7" := ColecaoHtml,
    ":colecao:2020-04-03;v7.reg~pdf.assign" := ColecaoPdf,
    Authority + ":estatuto:2020-04-03~pdf.assign" := EstatutoPdf,
    ":estatuto:2020-04-03~pdf.assign" := EstatutoPdf
  ]

  /** The aliases of each artifact, as the table groups them. */
  const EstatutoHtmlKeys: set<string> := {
    Authority + ":estatuto:2020-04-03",
    ":estatuto:2020-04-03", ":estatuto:2020", ":estatuto", ":estatuto~html" }
  const ColecaoHtmlKeys: set<string> := {
    Authority + ":colecao:2020-04-03;v7",
    ":colecao:2020-04-03;v7" }
  const ColecaoPdfKeys: set<string> := { ":colecao:2020-04-03;v7.reg~pdf.assign" }
  const EstatutoPdfKeys: set<string> := {
    Authority + ":estatuto:2020-04-03~pdf.assign",
    ":estatuto:2020-04-03~pdf.assign" }

  /** No key belongs to two alias groups. */
  lemma AliasGroupsDisjoint()
    ensures EstatutoHtmlKeys * ColecaoHtmlKeys == {}
    ensures (EstatutoHtmlKeys + ColecaoHtmlKeys) * ColecaoPdfKeys == {}
    ensures (EstatutoHtmlKeys + ColecaoHtmlKeys + ColecaoPdfKeys) * EstatutoPdfKeys == {}
  {
  }

  /** The table's keys are the four alias groups. */
  lemma TableKeys()
    ensures Table.Keys == EstatutoHtmlKeys + ColecaoHtmlKeys + ColecaoPdfKeys + EstatutoPdfKeys
  {
  }

  /** The sizes of the alias groups: five, two, one and two. */
  lemma AliasGroupSizes()
    ensures |EstatutoHtmlKeys| == 5 && |ColecaoHtmlKeys| == 2
    ensures |ColecaoPdfKeys| == 1 && |EstatutoPdfKeys| == 2
  {
  }

  /** The table has ten keys. */
  lemma TableSize()
    ensures |Table| == 10
  {
    TableKeys();
    AliasGroupsDisjoint();
    AliasGroupSizes();
    var a, b, c, d := EstatutoHtmlKeys, ColecaoHtmlKeys, ColecaoPdfKeys, EstatutoPdfKeys;
    assert |a + b| == 7;
    assert |a + b + c| == 8;
    assert |a + b + c + d| == 10;
    assert |Table| == |Table.Keys|;
  }

  /** Each alias group names one artifact, and the table names no other. */
  lemma TableAliases()
    ensures forall k :: k in EstatutoHtmlKeys ==> k in Table && Table[k] == EstatutoHtml
    ensures forall k :: k in ColecaoHtmlKeys ==> k in Table && Table[k] == ColecaoHtml
    ensures forall k :: k in ColecaoPdfKeys ==> k in Table && Table[k] == ColecaoPdf
    ensures forall k :: k in EstatutoPdfKeys ==> k in Table && Table[k] == EstatutoPdf
    ensures Table.Values == {EstatutoHtml, ColecaoHtml, ColecaoPdf, EstatutoPdf}
  {
  }

  /** A key the pattern can capture whole and trimming leaves alone:
      non-empty, without line feeds, and not ending in a slash. */
  predicate PlainKey(k: string) {
    k != [] && NoNewline(k) && k[|k| - 1] != '/'
  }

  /** A long key is plain when its short part is. */
  lemma AuthorityKeyPlain(short: string)
    requires PlainKey(short)
    ensures PlainKey(Authority + short)
  {
    NoNewlineConcat("br;sp;sao.paulo", ":associacao;dns-addressforall.org");
    NoNewlineConcat(Authority, short);
  }

  /** Every key of the table is plain. */
  lemma TableKeysPlain()
    ensures forall k :: k in Table ==> PlainKey(k)
  {
    AuthorityKeyPlain(":estatuto:2020-04-03");
    AuthorityKeyPlain(":colecao:2020-04-03;v7");
    AuthorityKeyPlain(":estatuto:2020-04-03~pdf.assign");
    assert PlainKey(":estatuto:2020");
    assert PlainKey(":estatuto");
    assert PlainKey(":estatuto~html");
    assert PlainKey(":colecao:2020-04-03;v7.reg~pdf.assign");
  }
}
