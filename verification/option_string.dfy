/**
 * The options string the macro builds: `key=value:` for every entry, in
 * order, followed by one NUL, and a reference reading of that format that
 * recovers the entries from it.
 */
module OptionString {
  import opened Wrappers
  import opened OptionParser

  /** The `key=value` text of one entry. */
  function EntryText(e: Entry): string
  {
    e.key + "=" + RenderValue(e.value)
  }

  /** The entries rendered one after the other, each closed by `:`. */
  function Render(es: seq<Entry>): string
  {
    if |es| == 0 then "" else EntryText(es[0]) + ":" + Render(es[1..])
  }

  /**
   * The NUL-terminated options string handed to the engine. It ends in its
   * only NUL when no entry holds one; and when no key holds `:` or `=` and no
   * value holds `:`, it has one `:` per entry and the reference reading
   * recovers every key and value, in order.
   */
  function OptionsString(es: seq<Entry>): (s: string)
    ensures |s| > 0 && s[|s| - 1] == '\0'
    ensures (forall i :: 0 <= i < |es| ==> NulFree(es[i])) ==> CountChar(s, '\0') == 1
    ensures AllPlain(es) ==> CountChar(s, ':') == |es|
    ensures AllPlain(es) ==> DecodeOptions(s) == Some(Pairs(es))
  {
    var s := Render(es) + "\0";
    OptionsStringShape(es);
    if AllPlain(es) then DecodeOptionsString(es); s else s
  }

  /** Rendering is compatible with concatenating entry lists: order is kept and nothing is merged. */
  lemma {:induction false} RenderAppend(a: seq<Entry>, b: seq<Entry>)
    ensures Render(a + b) == Render(a) + Render(b)
    decreases |a|
  {
    if |a| > 0 {
      assert (a + b)[0] == a[0] && (a + b)[1..] == a[1..] + b;
      RenderAppend(a[1..], b);
    } else {
      assert a + b == b;
    }
  }

  /** How many times `c` occurs in `s`. */
  function CountChar(s: string, c: char): nat
  {
    if |s| == 0 then 0 else (if s[0] == c then 1 else 0) + CountChar(s[1..], c)
  }

  lemma {:induction false} CountCharAppend(a: string, b: string, c: char)
    ensures CountChar(a + b, c) == CountChar(a, c) + CountChar(b, c)
    decreases |a|
  {
    if |a| > 0 {
      assert (a + b)[0] == a[0] && (a + b)[1..] == a[1..] + b;
      CountCharAppend(a[1..], b, c);
    } else {
      assert a + b == b;
    }
  }

  lemma {:induction false} CountCharAbsent(s: string, c: char)
    requires c !in s
    ensures CountChar(s, c) == 0
    decreases |s|
  {
    if |s| > 0 {
      assert forall x :: x in s[1..] ==> x in s;
      CountCharAbsent(s[1..], c);
    }
  }

  /** An entry whose key and value can be told apart from the delimiters around them. */
  predicate PlainEntry(e: Entry)
  {
    ':' !in e.key && '=' !in e.key && ':' !in RenderValue(e.value)
  }

  predicate AllPlain(es: seq<Entry>)
  {
    forall i :: 0 <= i < |es| ==> PlainEntry(es[i])
  }

  /** An entry free of NUL characters. */
  predicate NulFree(e: Entry)
  {
    '\0' !in e.key && '\0' !in RenderValue(e.value)
  }

  /** How often `c` occurs in one rendered entry, closing `:` included. */
  lemma EntryCount(e: Entry, c: char)
    ensures CountChar(EntryText(e) + ":", c)
         == CountChar(e.key, c) + (if c == '=' then 1 else 0) + CountChar(RenderValue(e.value), c) + (if c == ':' then 1 else 0)
  {
    CountCharAppend(EntryText(e), ":", c);
    CountCharAppend(e.key + "=", RenderValue(e.value), c);
    CountCharAppend(e.key, "=", c);
  }

  lemma {:induction false} RenderHasNoNul(es: seq<Entry>)
    requires forall i :: 0 <= i < |es| ==> NulFree(es[i])
    ensures CountChar(Render(es), '\0') == 0
    decreases |es|
  {
    if |es| > 0 {
      assert NulFree(es[0]);
      RenderHasNoNul(es[1..]);
      EntryCount(es[0], '\0');
      CountCharAbsent(es[0].key, '\0');
      CountCharAbsent(RenderValue(es[0].value), '\0');
      CountCharAppend(EntryText(es[0]) + ":", Render(es[1..]), '\0');
    }
  }

  lemma {:induction false} RenderColons(es: seq<Entry>)
    requires AllPlain(es)
    ensures CountChar(Render(es), ':') == |es|
    decreases |es|
  {
    if |es| > 0 {
      assert PlainEntry(es[0]);
      RenderColons(es[1..]);
      EntryCount(es[0], ':');
      CountCharAbsent(es[0].key, ':');
      CountCharAbsent(RenderValue(es[0].value), ':');
      CountCharAppend(EntryText(es[0]) + ":", Render(es[1..]), ':');
    }
  }

  /**
   * The options string carries exactly one NUL, at its end, when no entry
   * carries one; and one `:` per entry when no entry carries a `:` (nor a
   * key an `=`).
   */
  lemma {:induction false} OptionsStringShape(es: seq<Entry>)
    ensures (forall i :: 0 <= i < |es| ==> NulFree(es[i])) ==> CountChar(Render(es) + "\0", '\0') == 1
    ensures AllPlain(es) ==> CountChar(Render(es) + "\0", ':') == |es|
  {
    CountCharAppend(Render(es), "\0", '\0');
    CountCharAppend(Render(es), "\0", ':');
    if forall i :: 0 <= i < |es| ==> NulFree(es[i]) {
      RenderHasNoNul(es);
    }
    if AllPlain(es) {
      RenderColons(es);
    }
  }

  // ---------------------------------------------------------------------
  // Reading the string back.
  // ---------------------------------------------------------------------

  /** `s` cut at every `d`: n delimiters give n + 1 fields. */
  function Split(s: string, d: char): (r: seq<string>)
    ensures |r| > 0
  {
    if |s| == 0 then [""]
    else
      var rest := Split(s[1..], d);
      if s[0] == d then [""] + rest else [[s[0]] + rest[0]] + rest[1..]
  }

  /** `s` cut at its first `d`, if it has one. */
  function SplitFirst(s: string, d: char): Option<(string, string)>
  {
    if |s| == 0 then None
    else if s[0] == d then Some(("", s[1..]))
    else
      match SplitFirst(s[1..], d)
      case None => None
      case Some((k, v)) => Some(([s[0]] + k, v))
  }

  /** Each field read as `key=value`, cut at its first `=`. */
  function DecodeFields(fs: seq<string>): Option<seq<(string, string)>>
  {
    if |fs| == 0 then Some([])
    else
      match SplitFirst(fs[0], '=')
      case None => None
      case Some(kv) =>
        match DecodeFields(fs[1..])
        case None => None
        case Some(more) => Some([kv] + more)
  }

  /**
   * A reference reading of the options format: strip the final NUL, cut at
   * every `:`, require the piece after the last `:` to be empty, and read
   * every other piece as `key=value`.
   */
  function DecodeOptions(s: string): Option<seq<(string, string)>>
  {
    if |s| == 0 || s[|s| - 1] != '\0' then None
    else
      var fields := Split(s[..|s| - 1], ':');
      if fields[|fields| - 1] != "" then None
      else DecodeFields(fields[..|fields| - 1])
  }

  /** The key and rendered value of every entry, in order. */
  function Pairs(es: seq<Entry>): seq<(string, string)>
  {
    if |es| == 0 then [] else [(es[0].key, RenderValue(es[0].value))] + Pairs(es[1..])
  }

  /** The `key=value` text of every entry, in order. */
  function Texts(es: seq<Entry>): seq<string>
  {
    if |es| == 0 then [] else [EntryText(es[0])] + Texts(es[1..])
  }

  lemma {:induction false} SplitAtFirst(a: string, d: char, b: string)
    requires d !in a
    ensures Split(a + [d] + b, d) == [a] + Split(b, d)
    decreases |a|
  {
    var s := a + [d] + b;
    if |a| == 0 {
      assert s[1..] == b;
    } else {
      assert s[1..] == a[1..] + [d] + b;
      assert d !in a[1..] by {
        assert forall x :: x in a[1..] ==> x in a;
      }
      SplitAtFirst(a[1..], d, b);
      assert [a[0]] + a[1..] == a;
    }
  }

  lemma {:induction false} SplitFirstAt(k: string, d: char, v: string)
    requires d !in k
    ensures SplitFirst(k + [d] + v, d) == Some((k, v))
    decreases |k|
  {
    var s := k + [d] + v;
    if |k| == 0 {
      assert s[1..] == v;
    } else {
      assert s[1..] == k[1..] + [d] + v;
      assert d !in k[1..] by {
        assert forall x :: x in k[1..] ==> x in k;
      }
      SplitFirstAt(k[1..], d, v);
      assert [k[0]] + k[1..] == k;
    }
  }

  lemma {:induction false} SplitRender(es: seq<Entry>)
    requires AllPlain(es)
    ensures Split(Render(es), ':') == Texts(es) + [""]
    decreases |es|
  {
    if |es| > 0 {
      var t := EntryText(es[0]);
      assert ':' !in t by {
        assert PlainEntry(es[0]);
        assert t == es[0].key + "=" + RenderValue(es[0].value);
        assert forall x :: x in t ==> x in es[0].key || x == '=' || x in RenderValue(es[0].value);
      }
      assert AllPlain(es[1..]);
      SplitRender(es[1..]);
      assert Render(es) == t + [':'] + Render(es[1..]);
      SplitAtFirst(t, ':', Render(es[1..]));
    }
  }

  lemma {:induction false} DecodeTexts(es: seq<Entry>)
    requires AllPlain(es)
    ensures DecodeFields(Texts(es)) == Some(Pairs(es))
    decreases |es|
  {
    if |es| > 0 {
      assert PlainEntry(es[0]);
      assert EntryText(es[0]) == es[0].key + ['='] + RenderValue(es[0].value);
      SplitFirstAt(es[0].key, '=', RenderValue(es[0].value));
      assert AllPlain(es[1..]);
      DecodeTexts(es[1..]);
      assert Texts(es)[0] == EntryText(es[0]) && Texts(es)[1..] == Texts(es[1..]);
    }
  }

  /**
   * Round trip: when keys hold neither `:` nor `=` and values hold no `:`,
   * cutting the options string at `:` and then at `=` gives back every
   * entry's key and value, in order.
   */
  lemma DecodeOptionsString(es: seq<Entry>)
    requires AllPlain(es)
    ensures DecodeOptions(Render(es) + "\0") == Some(Pairs(es))
  {
    var s := Render(es) + "\0";
    SplitRender(es);
    DecodeTexts(es);
    var fields := Split(s[..|s| - 1], ':');
    assert fields == Texts(es) + [""];
    assert fields[..|fields| - 1] == Texts(es);
  }

  /** The empty list renders as the lone terminator. */
  lemma EmptyOptions()
    ensures OptionsString([]) == "\0"
  {
  }

  /** `invalid = true` renders as `invalid=true:` and the terminator. */
  lemma InvalidFlagExample()
    ensures OptionsString([Entry("invalid", Flag(true))]) == "invalid=true:\0"
  {
  }

  /**
   * A literal value is rendered by its text, `:` included: one entry
   * `foo = "a:b"` gives a string with two `:`, which the reference reading
   * splits into two pieces.
   */
  lemma ColonValueExample()
    ensures OptionsString([Entry("foo", Lit("\"a:b\""))]) == "foo=\"a:b\":\0"
    ensures CountChar(OptionsString([Entry("foo", Lit("\"a:b\""))]), ':') == 2
  {
    ColonValueRender();
    ColonValueCount();
  }

  lemma ColonValueRender()
    ensures Render([Entry("foo", Lit("\"a:b\""))]) == "foo=\"a:b\":"
  {
  }

  lemma ColonValueCount()
    ensures CountChar("foo=\"a:b\":\0", ':') == 2
  {
  }

  /** Two entries render as the first entry's text, `:`, the second's, `:`. */
  lemma RenderPair(a: Entry, b: Entry)
    ensures Render([a, b]) == EntryText(a) + ":" + EntryText(b) + ":"
  {
    assert [a, b][1..] == [b];
    assert [b][1..] == [];
    assert Render([b]) == EntryText(b) + ":" + "";
    assert EntryText(b) + ":" + "" == EntryText(b) + ":";
  }

  lemma TwoEntryTexts()
    ensures EntryText(Entry("delete_size_mismatch", Flag(false))) == "delete_size_mismatch=false"
    ensures EntryText(Entry("release_to_os_interval_ms", Negative("1"))) == "release_to_os_interval_ms=-1"
  {
  }

  lemma TwoEntryJoin()
    ensures "delete_size_mismatch=false" + ":" + "release_to_os_interval_ms=-1" + ":" + "\0"
         == "delete_size_mismatch=false:release_to_os_interval_ms=-1:\0"
  {
    var pieces := "delete_size_mismatch=false" + ":" + "release_to_os_interval_ms=-1" + ":" + "\0";
    var whole := "delete_size_mismatch=false:release_to_os_interval_ms=-1:\0";
    assert |pieces| == |whole|;
    forall i | 0 <= i < |whole| ensures pieces[i] == whole[i] {}
  }

  /** The two-entry example with a boolean and a negative number. */
  lemma TwoEntryExample()
    ensures OptionsString([Entry("delete_size_mismatch", Flag(false)),
                           Entry("release_to_os_interval_ms", Negative("1"))])
         == "delete_size_mismatch=false:release_to_os_interval_ms=-1:\0"
  {
    RenderPair(Entry("delete_size_mismatch", Flag(false)), Entry("release_to_os_interval_ms", Negative("1")));
    TwoEntryTexts();
    TwoEntryJoin();
  }
}
