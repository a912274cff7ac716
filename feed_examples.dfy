// Small event streams, evaluated by the model of the current app's feed parser.

module FeedExamples {
  import opened JavaLang
  import opened XmlPull
  import opened FeedCommon
  import opened FeedParser

  const NO_ATTRS: map<string, string> := map[]

  /** `<author>\n<name>Ann</name></author>`: the Atom person construct gives its name. */
  lemma AtomAuthorName()
    ensures var evs := [StartTag("author", NO_ATTRS), Text("\n"), StartTag("name", NO_ATTRS), Text("Ann"),
                        EndTag("name", NO_ATTRS), EndTag("author", NO_ATTRS), EndDoc];
            ReadAuthor(evs, 0) == Ok(("Ann", 4))
  {
    var evs := [StartTag("author", NO_ATTRS), Text("\n"), StartTag("name", NO_ATTRS), Text("Ann"),
                EndTag("name", NO_ATTRS), EndTag("author", NO_ATTRS), EndDoc];
    assert ReadText(evs, 0) == Ok(("\n", 2));
    assert Depth(evs, 2) == 2 && Depth(evs, 0) == 1;
    assert ReadText(evs, 2) == Ok(("Ann", 4));
  }

  /** `<author>Ann</author>`: plain RSS text. */
  lemma RssAuthorText()
    ensures var evs := [StartTag("author", NO_ATTRS), Text("Ann"), EndTag("author", NO_ATTRS), EndDoc];
            ReadAuthor(evs, 0) == Ok(("Ann", 2))
  {
    var evs := [StartTag("author", NO_ATTRS), Text("Ann"), EndTag("author", NO_ATTRS), EndDoc];
    assert ReadText(evs, 0) == Ok(("Ann", 2));
    assert Depth(evs, 2) == 1 && Depth(evs, 0) == 1;
  }

  /** `<author><email>a@b</email></author>`: the loop of `readAuthor` never advances. */
  lemma AuthorWithoutName()
    ensures var evs := [StartTag("author", NO_ATTRS), StartTag("email", NO_ATTRS), Text("a@b"),
                        EndTag("email", NO_ATTRS), EndTag("author", NO_ATTRS), EndDoc];
            ReadAuthor(evs, 0) == Err(Diverges)
  {
    var evs := [StartTag("author", NO_ATTRS), StartTag("email", NO_ATTRS), Text("a@b"),
                EndTag("email", NO_ATTRS), EndTag("author", NO_ATTRS), EndDoc];
    assert ReadText(evs, 0) == Ok(("", 1));
    assert Depth(evs, 1) == 2 && Depth(evs, 0) == 1;
  }

  /** `<content:encoded> </content:encoded>` after real content keeps the content. */
  lemma BlankContentKeepsEarlier()
    ensures var evs := [StartTag("content:encoded", NO_ATTRS), Text(" "), EndTag("content:encoded", NO_ATTRS), EndDoc];
            ReadContent(evs, 0, Some("<p>x</p>")) == Ok(("<p>x</p>", 2))
            && ReadContent(evs, 0, None) == Ok((" ", 2))
  {
    var evs := [StartTag("content:encoded", NO_ATTRS), Text(" "), EndTag("content:encoded", NO_ATTRS), EndDoc];
    assert ReadText(evs, 0) == Ok((" ", 2));
    assert IsBlank(" ");
  }

  /** `<link href="u"/>` (Atom) and `<link>u</link>` (RSS) both give the address. */
  lemma LinkForms()
    ensures ReadLink([StartTag("link", map["href" := "u"]), EndTag("link", map["href" := "u"]), EndDoc], 0) == Ok(("u", 1))
    ensures ReadLink([StartTag("link", NO_ATTRS), Text("u"), EndTag("link", NO_ATTRS), EndDoc], 0) == Ok(("u", 2))
  {
    var a := [StartTag("link", map["href" := "u"]), EndTag("link", map["href" := "u"]), EndDoc];
    assert NextTag(a, 0) == Ok(1);
    var b := [StartTag("link", NO_ATTRS), Text("u"), EndTag("link", NO_ATTRS), EndDoc];
    assert ReadText(b, 0) == Ok(("u", 2));
  }
}
