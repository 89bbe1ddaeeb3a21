/**
 * The `set_scudo_options` attribute macro: it checks that it is attached to
 * `main`, parses its options, and adds an accessor returning the options
 * string next to the unchanged item.
 */
module OptionsMacro {
  import opened Wrappers
  import opened OptionParser
  import opened OptionString

  /**
   * The item the attribute is attached to: its tokens, and the name of the
   * function they declare when they parse as a function at all.
   */
  datatype Item = Item(tokens: seq<Token>, fnName: Option<string>)

  /** Why the expansion carries a compile error. */
  datatype MacroError =
    | NotAFunction              // the item does not parse as a function
    | NotMain                   // the function is not called `main`
    | BadOptions(ParseError)    // the attribute's options do not parse

  /** One piece of the expansion, in output order. */
  datatype Fragment =
    | Verbatim(tokens: seq<Token>)    // tokens copied from the input unchanged
    | CompileError(error: MacroError) // a `compile_error!` invocation
    | OptionsAccessor(literal: string) // `__scudo_default_options`, returning a pointer to `literal`

  /** The given tokens, followed by one compile error. */
  function TokenStreamWithError(tokens: seq<Fragment>, error: MacroError): (r: seq<Fragment>)
    ensures |r| == |tokens| + 1 && r[..|tokens|] == tokens && r[|tokens|] == CompileError(error)
  {
    tokens + [CompileError(error)]
  }

  /** Whether an expansion defines the options accessor. */
  predicate DefinesAccessor(out: seq<Fragment>)
  {
    exists i :: 0 <= i < |out| && out[i].OptionsAccessor?
  }

  /**
   * The macro. The item is checked before the options: an item that is not a
   * function, or a function not called `main`, is returned unchanged with a
   * compile error after it. Options that do not parse leave only their
   * compile error, without the item. Otherwise the item is returned
   * unchanged, followed by the accessor for the options string.
   */
  function SetScudoOptions(attr: seq<Token>, item: Item): (r: seq<Fragment>)
    ensures DefinesAccessor(r) <==> item.fnName == Some("main") && ParseOptionsList(attr).Ok?
    ensures item.fnName == None ==> r == [Verbatim(item.tokens), CompileError(NotAFunction)]
    ensures item.fnName.Some? && item.fnName != Some("main") ==> r == [Verbatim(item.tokens), CompileError(NotMain)]
    ensures item.fnName == Some("main") && ParseOptionsList(attr).Err? ==>
      r == [CompileError(BadOptions(ParseOptionsList(attr).error))]
    ensures DefinesAccessor(r) ==>
      r == [Verbatim(item.tokens), OptionsAccessor(OptionsString(ParseOptionsList(attr).value))]
  {
    match item.fnName
    case None => TokenStreamWithError([Verbatim(item.tokens)], NotAFunction)
    case Some(name) =>
      if name != "main" then TokenStreamWithError([Verbatim(item.tokens)], NotMain)
      else
        match ParseOptionsList(attr)
        case Err(e) => [CompileError(BadOptions(e))]
        case Ok(options) =>
          var out := [Verbatim(item.tokens), OptionsAccessor(OptionsString(options))];
          assert out[1].OptionsAccessor?;
          out
  }

  /**
   * The name check comes before the options are read: for a function other
   * than `main` the expansion does not depend on the attribute at all, so
   * even malformed options give the `NotMain` error and no options string.
   */
  lemma NameCheckedBeforeOptions(attr1: seq<Token>, attr2: seq<Token>, name: string, tokens: seq<Token>)
    requires name != "main"
    ensures SetScudoOptions(attr1, Item(tokens, Some(name))) == SetScudoOptions(attr2, Item(tokens, Some(name)))
    ensures SetScudoOptions(attr1, Item(tokens, Some(name))) == [Verbatim(tokens), CompileError(NotMain)]
  {
  }

  /**
   * End to end: attached to `main`, an attribute that spells the entries
   * `es` (with or without a trailing comma), none of whose keys is a
   * keyword, expands to the untouched item
   * followed by the accessor, and the string it returns reads back as the
   * entries' keys and values in order.
   */
  lemma ExpansionRoundTrip(es: seq<Entry>, trailingComma: bool, tokens: seq<Token>)
    requires KeysAllowed(es)
    requires trailingComma ==> |es| > 0
    ensures var attr := if trailingComma then ListTokens(es) + [Punct(',')] else ListTokens(es);
      SetScudoOptions(attr, Item(tokens, Some("main"))) == [Verbatim(tokens), OptionsAccessor(OptionsString(es))]
    ensures AllPlain(es) ==> DecodeOptions(OptionsString(es)) == Some(Pairs(es))
  {
    var attr := if trailingComma then ListTokens(es) + [Punct(',')] else ListTokens(es);
    ParseOptionsListExact(attr, es);
  }

  /**
   * A literal holding `:` is not refused: `foo = "a:b"` on `main` expands to
   * an accessor for `foo="a:b":` and the NUL.
   */
  lemma ColonValueExpands(tokens: seq<Token>)
    ensures SetScudoOptions([Ident("foo"), Punct('='), Literal("\"a:b\"")], Item(tokens, Some("main")))
         == [Verbatim(tokens), OptionsAccessor("foo=\"a:b\":\0")]
  {
    var e := Entry("foo", Lit("\"a:b\""));
    assert [Ident("foo"), Punct('='), Literal("\"a:b\"")] == ListTokens([e]);
    assert KeysAllowed([e]);
    ExpansionRoundTrip([e], false, tokens);
    ColonValueExample();
  }

  /** `#[set_scudo_options(invalid = true)]` on `main` adds an accessor for `invalid=true:` and the NUL. */
  lemma InvalidFlagExpansion(tokens: seq<Token>)
    ensures SetScudoOptions([Ident("invalid"), Punct('='), Ident("true")], Item(tokens, Some("main")))
         == [Verbatim(tokens), OptionsAccessor("invalid=true:\0")]
  {
    var attr := [Ident("invalid"), Punct('='), Ident("true")];
    var e := Entry("invalid", Flag(true));
    assert attr == ListTokens([e]);
    assert KeysAllowed([e]);
    SpelledIsParsed([e], attr);
    InvalidFlagExample();
  }

  /**
   * A value that is neither a literal, a negated literal, nor a boolean fails
   * the whole expansion (as does a keyword key, which is refused first).
   */
  lemma BadValueExpansion(key: string, n: string, tokens: seq<Token>)
    requires n != "true" && n != "false"
    ensures SetScudoOptions([Ident(key), Punct('='), Ident(n)], Item(tokens, Some("main")))
         == [CompileError(BadOptions(if IsKeyword(key) then ExpectedKey else InvalidValue))]
  {
    assert [Ident(key), Punct('='), Ident(n)][2..] == [Ident(n)];
  }
}
