/**
 * The grammar of the `set_scudo_options` attribute: a comma separated list of
 * `key = value` entries, read token by token the way the `syn` parser used by
 * the macro reads them.
 */
module OptionParser {
  import opened Wrappers

  /** One token tree of the attribute's input. */
  datatype Token =
    | Punct(ch: char)         // a single punctuation character such as `=`, `,` or `-`
    | Literal(text: string)   // a literal, carried as its own source text (`3.14`, `1`, `"x"`)
    | Ident(name: string)     // an identifier; `true` and `false` are identifiers too
    | Group                   // a delimited group `( … )`, `[ … ]` or `{ … }`

  /** An accepted option value. */
  datatype Value =
    | Lit(text: string)       // a literal token, kept as it was written
    | Negative(text: string)  // `-` immediately followed by a literal token
    | Flag(on: bool)          // the identifier `true` or `false`

  /** One `key = value` entry of the attribute. */
  datatype Entry = Entry(key: string, value: Value)

  /** Why the attribute was rejected. */
  datatype ParseError =
    | ExpectedKey      // an entry does not start with an identifier
    | ExpectedEquals   // the `=` after the key is missing
    | InvalidValue     // the value has none of the accepted shapes
    | ExpectedToken    // the input ends right after a `-`
    | ExpectedComma    // two entries are not separated by `,`

  /**
   * The words the identifier parser of `syn` 1 refuses as an identifier:
   * `_` and the keywords of the 2015 edition, strict and reserved, grouped by
   * length. Such a word cannot be a key; the later keywords `async`,
   * `await`, `dyn` and `try` can.
   */
  function KeywordsOfLength(n: nat): (ks: set<string>)
    ensures forall k :: k in ks ==> |k| == n
  {
    match n
    case 1 => {"_"}
    case 2 => {"as", "do", "fn", "if", "in"}
    case 3 => {"box", "for", "let", "mod", "mut", "pub", "ref", "use"}
    case 4 => {"else", "enum", "impl", "loop", "move", "priv", "Self", "self", "true", "type"}
    case 5 => {"break", "const", "crate", "false", "final", "macro", "match",
               "super", "trait", "where", "while", "yield"}
    case 6 => {"become", "extern", "return", "static", "struct", "typeof", "unsafe"}
    case 7 => {"unsized", "virtual"}
    case 8 => {"abstract", "continue", "override"}
    case _ => {}
  }

  predicate IsKeyword(name: string)
  {
    name in KeywordsOfLength(|name|)
  }

  /** Every key of the list is an identifier the key parser accepts. */
  predicate KeysAllowed(es: seq<Entry>)
  {
    forall i :: 0 <= i < |es| ==> !IsKeyword(es[i].key)
  }

  /** The text an accepted value contributes to the options string. */
  function RenderValue(v: Value): string
  {
    match v
    case Lit(t) => t
    case Negative(t) => "-" + t
    case Flag(b) => if b then "true" else "false"
  }

  /** `rest` is what is left of `ts` after a strictly positive number of tokens was consumed. */
  predicate ConsumedPrefix(ts: seq<Token>, rest: seq<Token>)
  {
    |rest| < |ts| && rest == ts[|ts| - |rest|..]
  }

  /**
   * Reads one value. A `-` must be followed by a literal; any other
   * punctuation, a group, an identifier other than `true`/`false`, or the end
   * of the input is rejected with `InvalidValue`, except that input ending
   * right after a `-` fails on reading the missing token.
   */
  function ParseValue(ts: seq<Token>): (r: Result<(Value, seq<Token>), ParseError>)
    ensures r.Ok? ==> ConsumedPrefix(ts, r.value.1)
    ensures r.Err? ==> r.error == InvalidValue || (ts == [Punct('-')] && r.error == ExpectedToken)
  {
    if |ts| == 0 then Err(InvalidValue)
    else
      match ts[0]
      case Punct(c) =>
        if c != '-' then Err(InvalidValue)
        else if |ts| == 1 then Err(ExpectedToken)
        else if ts[1].Literal? then Ok((Negative(ts[1].text), ts[2..]))
        else Err(InvalidValue)
      case Literal(t) => Ok((Lit(t), ts[1..]))
      case Ident(n) =>
        if n != "true" && n != "false" then Err(InvalidValue)
        else Ok((Flag(n == "true"), ts[1..]))
      case Group => Err(InvalidValue)
  }

  /**
   * Reads one entry: an identifier key that is not a keyword, a mandatory
   * `=`, then a value.
   */
  function ParseEntry(ts: seq<Token>): (r: Result<(Entry, seq<Token>), ParseError>)
    ensures r.Ok? ==> ConsumedPrefix(ts, r.value.1)
    ensures r.Ok? ==> |ts| >= 3 && ts[0] == Ident(r.value.0.key) && ts[1] == Punct('=')
    ensures r.Ok? ==> !IsKeyword(r.value.0.key)
    ensures |ts| > 0 && ts[0].Ident? && IsKeyword(ts[0].name) ==> r == Err(ExpectedKey)
  {
    if |ts| == 0 || !ts[0].Ident? || IsKeyword(ts[0].name) then Err(ExpectedKey)
    else if |ts| == 1 || ts[1] != Punct('=') then Err(ExpectedEquals)
    else
      match ParseValue(ts[2..])
      case Err(e) => Err(e)
      case Ok((v, rest)) => Ok((Entry(ts[0].name, v), rest))
  }

  /**
   * Reads the whole attribute: entries separated by `,`, an optional
   * trailing `,`, and nothing else.
   */
  function ParseOptionsList(ts: seq<Token>): (r: Result<seq<Entry>, ParseError>)
    ensures r.Ok? ==> (r.value == [] <==> ts == [])
    decreases |ts|
  {
    if |ts| == 0 then Ok([])
    else
      match ParseEntry(ts)
      case Err(e) => Err(e)
      case Ok((entry, rest)) =>
        if |rest| == 0 then Ok([entry])
        else if rest[0] != Punct(',') then Err(ExpectedComma)
        else
          match ParseOptionsList(rest[1..])
          case Err(e) => Err(e)
          case Ok(more) => Ok([entry] + more)
  }

  // ---------------------------------------------------------------------
  // Printing: the token shapes the parser accepts, written out directly.
  // ---------------------------------------------------------------------

  /** The tokens that spell a value. */
  function ValueTokens(v: Value): seq<Token>
  {
    match v
    case Lit(t) => [Literal(t)]
    case Negative(t) => [Punct('-'), Literal(t)]
    case Flag(b) => [Ident(if b then "true" else "false")]
  }

  /** The tokens that spell an entry. */
  function EntryTokens(e: Entry): seq<Token>
  {
    [Ident(e.key), Punct('=')] + ValueTokens(e.value)
  }

  /** The tokens that spell a list of entries, separated by commas, without a trailing comma. */
  function ListTokens(es: seq<Entry>): seq<Token>
  {
    if |es| == 0 then []
    else if |es| == 1 then EntryTokens(es[0])
    else EntryTokens(es[0]) + [Punct(',')] + ListTokens(es[1..])
  }

  /** A value is read back from exactly its own tokens, whatever follows them. */
  lemma ParseValueExact(ts: seq<Token>, v: Value, rest: seq<Token>)
    ensures ParseValue(ts) == Ok((v, rest)) <==> ts == ValueTokens(v) + rest
  {
    if ts == ValueTokens(v) + rest {
      match v
      case Lit(t) => assert ts[0] == Literal(t) && ts[1..] == rest;
      case Negative(t) => assert ts[0] == Punct('-') && ts[1] == Literal(t) && ts[2..] == rest;
      case Flag(b) => assert ts[0] == Ident(if b then "true" else "false") && ts[1..] == rest;
    }
    if ParseValue(ts) == Ok((v, rest)) {
      match ts[0]
      case Punct(c) => assert ts == [ts[0], ts[1]] + ts[2..];
      case Literal(t) => assert ts == [ts[0]] + ts[1..];
      case Ident(n) => assert ts == [ts[0]] + ts[1..];
    }
  }

  /**
   * An entry is read back from exactly its own tokens, whatever follows
   * them, provided its key is not a keyword.
   */
  lemma ParseEntryExact(ts: seq<Token>, e: Entry, rest: seq<Token>)
    ensures ParseEntry(ts) == Ok((e, rest)) <==> ts == EntryTokens(e) + rest && !IsKeyword(e.key)
  {
    if ts == EntryTokens(e) + rest && !IsKeyword(e.key) {
      assert ts[2..] == ValueTokens(e.value) + rest;
      ParseValueExact(ts[2..], e.value, rest);
    }
    if ParseEntry(ts) == Ok((e, rest)) {
      ParseValueExact(ts[2..], e.value, rest);
      assert ts == [ts[0], ts[1]] + ts[2..];
    }
  }

  /**
   * The attribute grammar exactly: a token sequence is accepted as the entry
   * list `es` if and only if it spells `es` separated by commas, optionally
   * followed by one trailing comma when `es` is not empty, and no key of
   * `es` is a keyword.
   */
  lemma {:induction false} ParseOptionsListExact(ts: seq<Token>, es: seq<Entry>)
    ensures ParseOptionsList(ts) == Ok(es)
        <==> (ts == ListTokens(es) || (|es| > 0 && ts == ListTokens(es) + [Punct(',')])) && KeysAllowed(es)
    decreases |ts|
  {
    if ParseOptionsList(ts) == Ok(es) {
      ParsedIsSpelled(ts, es);
    }
    if (ts == ListTokens(es) || (|es| > 0 && ts == ListTokens(es) + [Punct(',')])) && KeysAllowed(es) {
      SpelledIsParsed(es, ts);
    }
  }

  /** One step of the list parser after an entry followed by `,`. */
  lemma ListAfterComma(ts: seq<Token>, entry: Entry, rest: seq<Token>)
    requires ParseEntry(ts) == Ok((entry, rest))
    requires |rest| > 0 && rest[0] == Punct(',')
    ensures ParseOptionsList(rest[1..]).Ok? ==> ParseOptionsList(ts) == Ok([entry] + ParseOptionsList(rest[1..]).value)
    ensures ParseOptionsList(rest[1..]).Err? ==> ParseOptionsList(ts).Err?
  {
  }

  /** The list parser's first step, read backwards from a successful result. */
  lemma ListDecompose(ts: seq<Token>, es: seq<Entry>)
    requires |ts| > 0 && ParseOptionsList(ts) == Ok(es)
    ensures ParseEntry(ts).Ok? && |es| > 0 && es[0] == ParseEntry(ts).value.0
    ensures var rest := ParseEntry(ts).value.1;
      if |rest| == 0 then es == [es[0]]
      else rest[0] == Punct(',') && ParseOptionsList(rest[1..]) == Ok(es[1..])
  {
  }

  /** Spelling `[entry] + more` is spelling `entry`, a comma, and spelling `more`. */
  lemma SpelledCons(entry: Entry, more: seq<Entry>, x: seq<Token>)
    requires x == ListTokens(more) || (|more| > 0 && x == ListTokens(more) + [Punct(',')])
    ensures var spelled := EntryTokens(entry) + [Punct(',')] + x;
      spelled == ListTokens([entry] + more) || spelled == ListTokens([entry] + more) + [Punct(',')]
  {
    var es := [entry] + more;
    if |more| == 0 {
      assert x == [];
      assert ListTokens(es) == EntryTokens(entry);
    } else {
      assert es[0] == entry && es[1..] == more;
    }
  }

  /** An entry's tokens, then a comma-led spelling of a list, spell the longer list. */
  lemma ConsSpelled(entry: Entry, more: seq<Entry>, rest: seq<Token>, x: seq<Token>)
    requires rest == [Punct(',')] + x
    requires x == ListTokens(more) || (|more| > 0 && x == ListTokens(more) + [Punct(',')])
    ensures var spelled := EntryTokens(entry) + rest;
      spelled == ListTokens([entry] + more) || spelled == ListTokens([entry] + more) + [Punct(',')]
  {
    SpelledCons(entry, more, x);
  }

  lemma {:induction false} ParsedIsSpelled(ts: seq<Token>, es: seq<Entry>)
    requires ParseOptionsList(ts) == Ok(es)
    ensures ts == ListTokens(es) || (|es| > 0 && ts == ListTokens(es) + [Punct(',')])
    ensures KeysAllowed(es)
    decreases |ts|
  {
    if |ts| > 0 {
      ListDecompose(ts, es);
      var rest := ParseEntry(ts).value.1;
      ParseEntryExact(ts, es[0], rest);
      if |rest| == 0 {
        assert ts == EntryTokens(es[0]);
      } else {
        ParsedIsSpelled(rest[1..], es[1..]);
        assert rest == [Punct(',')] + rest[1..];
        ConsSpelled(es[0], es[1..], rest, rest[1..]);
        assert es == [es[0]] + es[1..];
        KeysAllowedCons(es);
      }
    }
  }

  /** A list's keys are allowed exactly when its first key and the rest's keys are. */
  lemma KeysAllowedCons(es: seq<Entry>)
    requires |es| > 0
    ensures KeysAllowed(es) <==> !IsKeyword(es[0].key) && KeysAllowed(es[1..])
  {
    if !IsKeyword(es[0].key) && KeysAllowed(es[1..]) {
      forall i | 0 <= i < |es| ensures !IsKeyword(es[i].key) {
        if i > 0 {
          assert es[i] == es[1..][i - 1];
        }
      }
    }
    if KeysAllowed(es) {
      forall i | 0 <= i < |es| - 1 ensures !IsKeyword(es[1..][i].key) {
        assert es[1..][i] == es[i + 1];
      }
    }
  }

  /** A single entry, with or without a trailing comma. */
  lemma SpelledSingle(e: Entry, ts: seq<Token>)
    requires ts == EntryTokens(e) || ts == EntryTokens(e) + [Punct(',')]
    requires !IsKeyword(e.key)
    ensures ParseOptionsList(ts) == Ok([e])
  {
    var tail := ts[|EntryTokens(e)|..];
    assert ts == EntryTokens(e) + tail;
    ParseEntryExact(ts, e, tail);
    if tail != [] {
      assert tail == [Punct(',')];
      assert ParseOptionsList(tail[1..]) == Ok([]);
      ListAfterComma(ts, e, tail);
      assert [e] + [] == [e];
    }
  }

  lemma CommaJoin(head: seq<Token>, x: seq<Token>)
    ensures var ts := head + [Punct(',')] + x;
      ts == head + ts[|head|..] && ts[|head|] == Punct(',') && ts[|head| + 1..] == x
  {
  }

  /** A spelling of two or more entries is the first entry's tokens, a comma, and a spelling of the rest. */
  lemma SpelledSplit(es: seq<Entry>, ts: seq<Token>)
    requires |es| > 1
    requires ts == ListTokens(es) || ts == ListTokens(es) + [Punct(',')]
    ensures var n := |EntryTokens(es[0])|;
      && |ts| > n
      && ts == EntryTokens(es[0]) + ts[n..]
      && ts[n] == Punct(',')
      && (ts[n + 1..] == ListTokens(es[1..]) || ts[n + 1..] == ListTokens(es[1..]) + [Punct(',')])
  {
    var head := EntryTokens(es[0]);
    var more := ListTokens(es[1..]);
    assert ListTokens(es) == head + [Punct(',')] + more;
    var x := if ts == ListTokens(es) then more else more + [Punct(',')];
    assert ts == head + [Punct(',')] + x;
    CommaJoin(head, x);
  }

  lemma {:induction false} SpelledIsParsed(es: seq<Entry>, ts: seq<Token>)
    requires ts == ListTokens(es) || (|es| > 0 && ts == ListTokens(es) + [Punct(',')])
    requires KeysAllowed(es)
    ensures ParseOptionsList(ts) == Ok(es)
    decreases |es|
  {
    if |es| == 1 {
      SpelledSingle(es[0], ts);
      assert es == [es[0]];
    } else if |es| > 1 {
      SpelledSplit(es, ts);
      KeysAllowedCons(es);
      var n := |EntryTokens(es[0])|;
      ParseEntryExact(ts, es[0], ts[n..]);
      SpelledIsParsed(es[1..], ts[n + 1..]);
      assert ts[n..][1..] == ts[n + 1..];
      ListAfterComma(ts, es[0], ts[n..]);
      assert es == [es[0]] + es[1..];
    }
  }

  /**
   * The individual rejection rules of the value grammar: punctuation other
   * than `-`, a `-` not followed by a literal, an identifier other than
   * `true`/`false`, a group, and a missing value are all refused.
   */
  lemma RejectedValues(c: char, t: Token, n: string, rest: seq<Token>)
    ensures c != '-' ==> ParseValue([Punct(c)] + rest) == Err(InvalidValue)
    ensures !t.Literal? ==> ParseValue([Punct('-'), t] + rest) == Err(InvalidValue)
    ensures n != "true" && n != "false" ==> ParseValue([Ident(n)] + rest) == Err(InvalidValue)
    ensures ParseValue([Group] + rest) == Err(InvalidValue)
    ensures ParseValue([]) == Err(InvalidValue)
    ensures ParseValue([Punct('-')]) == Err(ExpectedToken)
  {
  }

  /**
   * An entry whose key is not followed by `=` is refused, and so is the
   * whole attribute containing it as its first entry.
   */
  lemma MissingEqualsRejected(key: string, ts: seq<Token>)
    requires ts == [] || ts[0] != Punct('=')
    ensures ParseEntry([Ident(key)] + ts) == Err(if IsKeyword(key) then ExpectedKey else ExpectedEquals)
    ensures ParseOptionsList([Ident(key)] + ts) == Err(if IsKeyword(key) then ExpectedKey else ExpectedEquals)
  {
  }

  /**
   * A keyword is refused as a key whatever follows it, so an attribute whose
   * first entry is, say, `type = 1` is rejected.
   */
  lemma KeywordKeyRejected(key: string, ts: seq<Token>)
    requires IsKeyword(key)
    ensures ParseEntry([Ident(key)] + ts) == Err(ExpectedKey)
    ensures ParseOptionsList([Ident(key)] + ts) == Err(ExpectedKey)
    ensures ParseOptionsList([Ident("type"), Punct('='), Literal("1")]) == Err(ExpectedKey)
  {
    assert IsKeyword("type");
  }

  /**
   * The keywords added after the 2015 edition are ordinary identifiers to
   * the key parser: `dyn = 1` and `async = true` are accepted.
   */
  lemma LaterKeywordKeysAccepted()
    ensures ParseOptionsList([Ident("dyn"), Punct('='), Literal("1")]) == Ok([Entry("dyn", Lit("1"))])
    ensures ParseOptionsList([Ident("async"), Punct('='), Ident("true")]) == Ok([Entry("async", Flag(true))])
    ensures !IsKeyword("await") && !IsKeyword("try")
  {
    DynAsyncAllowed();
    AwaitTryAllowed();
    LaterKeywordSpellings();
    SingleEntryAccepted(Entry("dyn", Lit("1")), [Ident("dyn"), Punct('='), Literal("1")]);
    SingleEntryAccepted(Entry("async", Flag(true)), [Ident("async"), Punct('='), Ident("true")]);
  }

  lemma DynAsyncAllowed()
    ensures !IsKeyword("dyn") && !IsKeyword("async")
  {
  }

  lemma AwaitTryAllowed()
    ensures !IsKeyword("await") && !IsKeyword("try")
  {
  }

  lemma LaterKeywordSpellings()
    ensures [Ident("dyn"), Punct('='), Literal("1")] == EntryTokens(Entry("dyn", Lit("1")))
    ensures [Ident("async"), Punct('='), Ident("true")] == EntryTokens(Entry("async", Flag(true)))
  {
  }

  lemma SingleEntryAccepted(e: Entry, ts: seq<Token>)
    requires ts == EntryTokens(e) && !IsKeyword(e.key)
    ensures ParseOptionsList(ts) == Ok([e])
  {
    assert ListTokens([e]) == ts;
    assert KeysAllowed([e]);
    SpelledIsParsed([e], ts);
  }

  /** Any literal token is accepted as it is, with no check of its text. */
  lemma LiteralAcceptedVerbatim(t: string, rest: seq<Token>)
    ensures ParseValue([Literal(t)] + rest) == Ok((Lit(t), rest))
    ensures RenderValue(Lit(t)) == t
  {
    assert ([Literal(t)] + rest)[1..] == rest;
  }
}
