/**
 * The `{% base_tag %}` / `{% base_tag xhtml %}` tag: an optional NAME giving
 * the document type (default `html`), then the block end. The tag becomes a
 * text node holding the framework's base tag for that document type; the
 * framework's rendering of it is the parameter `baseTag`.
 */
module BaseTag {
  import opened Wrappers
  import opened Tokens
  import opened PhpStrings

  /** The tag name the parser is registered under. */
  const Tag := "base_tag"

  /** The document type used when the tag has no argument. */
  const DefaultType := "html"

  /** The one document type, compared case-insensitively, that selects xhtml. */
  const XhtmlType := "xhtml"

  /** A text node: the emitted markup and the opening tag's line. */
  datatype TextNode = TextNode(text: string, line: nat)

  /** A parsed tag and the cursor after its block end. */
  datatype Parsed = Parsed(node: TextNode, end: nat)

  predicate IsXhtml(docType: string) {
    ToLower(docType) == XhtmlType
  }

  /** The document type the tag names, and the cursor after it. */
  datatype DocType = DocType(name: string, next: nat)

  /** The optional NAME: its value and the cursor after it, or the default and the cursor unchanged. */
  function ReadType(ts: seq<Token>, pos: nat): (r: Result<DocType, SyntaxError>)
    ensures r.Success?
    ensures pos < |ts| && ts[pos].kind == Name ==> r.value == DocType(ts[pos].value, pos + 1)
    ensures !(pos < |ts| && ts[pos].kind == Name) ==> r.value == DocType(DefaultType, pos)
  {
    match Look(ts, pos)
    case Some(t) =>
      if t.kind == Name then
        var name :- Expect(ts, pos, Name, None);
        Success(DocType(name.token.value, name.next))
      else Success(DocType(DefaultType, pos))
    case None => Success(DocType(DefaultType, pos))
  }

  function Parse(ts: seq<Token>, pos: nat, line: nat, baseTag: bool -> string): (r: Result<Parsed, SyntaxError>)
    ensures r.Success? <==>
      || (pos < |ts| && ts[pos].kind == BlockEnd)
      || (pos + 1 < |ts| && ts[pos].kind == Name && ts[pos + 1].kind == BlockEnd)
    ensures r.Success? && ts[pos].kind == Name ==>
      r.value == Parsed(TextNode(baseTag(IsXhtml(ts[pos].value)), line), pos + 2)
    ensures r.Success? && ts[pos].kind != Name ==>
      r.value == Parsed(TextNode(baseTag(false), line), pos + 1)
  {
    // The expect that follows a NAME look-ahead cannot fail.
    var docType := ReadType(ts, pos).value;
    var blockEnd :- Expect(ts, docType.next, BlockEnd, None);
    Success(Parsed(TextNode(baseTag(IsXhtml(docType.name)), line), blockEnd.next))
  }

  /** The xhtml test accepts exactly the five letters of `xhtml` in any mix of cases. */
  lemma XhtmlIgnoresCase(docType: string)
    ensures IsXhtml(docType) <==>
      && |docType| == 5
      && forall i :: 0 <= i < 5 ==> docType[i] == XhtmlType[i] || docType[i] == "XHTML"[i]
  {
    var lowered := ToLower(docType);
    if IsXhtml(docType) {
      forall i | 0 <= i < 5
        ensures docType[i] == XhtmlType[i] || docType[i] == "XHTML"[i]
      {
        assert LowerChar(docType[i]) == XhtmlType[i];
      }
    }
    if |docType| == 5 && forall i :: 0 <= i < 5 ==> docType[i] == XhtmlType[i] || docType[i] == "XHTML"[i] {
      forall i | 0 <= i < 5
        ensures lowered[i] == XhtmlType[i]
      {
        assert lowered[i] == LowerChar(docType[i]);
      }
    }
  }

  /** `XHTML` and `XHtml` select xhtml; `html` (the default) and `html5` do not. */
  lemma XhtmlExamples()
    ensures IsXhtml("XHTML") && IsXhtml("XHtml") && IsXhtml("xhtml")
    ensures !IsXhtml(DefaultType) && !IsXhtml("html5") && !IsXhtml("xhtml1")
  {
    XhtmlIgnoresCase("XHTML");
    XhtmlIgnoresCase("XHtml");
    XhtmlIgnoresCase("xhtml");
    XhtmlIgnoresCase("html");
    XhtmlIgnoresCase("html5");
    XhtmlIgnoresCase("xhtml1");
  }
}
