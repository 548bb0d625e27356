/** The text payload `agentfs_readdir` hands across the C boundary: the entry
    names as a JSON array of strings (RFC 8259, section 5 for arrays and
    section 7 for strings). Only backslash and double quote are escaped.

    `Decode` is an independent reference decoder for that grammar. It is
    strict where RFC 8259, section 7 is strict: a raw control character
    (U+0000 to U+001F) inside a string is rejected. The round trip holds
    exactly for listings whose names carry no control character. */
module DirJson {
  import opened Common

  // ---------------------------------------------------------------------
  // Encoder, as the adapter builds it
  // ---------------------------------------------------------------------

  /** Rust's `str::replace` with a single-character pattern: every `c`
      becomes `r`, every other character is kept. */
  function ReplaceChar(s: string, c: char, r: string): string
  {
    if s == [] then [] else (if s[0] == c then r else [s[0]]) + ReplaceChar(s[1..], c, r)
  }

  /** The two replacements applied to every name, in the source's order:
      backslashes are doubled first, then quotes get a backslash. */
  function Escape(s: string): string
  {
    ReplaceChar(ReplaceChar(s, '\\', "\\\\"), '"', "\\\"")
  }

  function Quote(s: string): string
  {
    "\"" + Escape(s) + "\""
  }

  function QuoteAll(names: seq<string>): (r: seq<string>)
    ensures |r| == |names|
  {
    if names == [] then [] else [Quote(names[0])] + QuoteAll(names[1..])
  }

  /** `Vec::join(",")`: the items separated by commas, "" for no items. */
  function JoinComma(items: seq<string>): string
  {
    if |items| == 0 then ""
    else if |items| == 1 then items[0]
    else items[0] + "," + JoinComma(items[1..])
  }

  /** `format!("[{}]", …)` over the quoted, comma-joined names. */
  function Encode(names: seq<string>): string
  {
    "[" + JoinComma(QuoteAll(names)) + "]"
  }

  // ---------------------------------------------------------------------
  // Per-character view of the escaping
  // ---------------------------------------------------------------------

  function EscapeChar(c: char): string
  {
    if c == '\\' then "\\\\" else if c == '"' then "\\\"" else [c]
  }

  /** One pass over the name, escaping each character on its own. */
  function EscapeEach(s: string): string
  {
    if s == [] then [] else EscapeChar(s[0]) + EscapeEach(s[1..])
  }

  lemma {:induction false} ReplaceCharAppend(a: string, b: string, c: char, r: string)
    ensures ReplaceChar(a + b, c, r) == ReplaceChar(a, c, r) + ReplaceChar(b, c, r)
    decreases |a|
  {
    if a == [] {
      assert a + b == b;
    } else {
      assert (a + b)[1..] == a[1..] + b;
      ReplaceCharAppend(a[1..], b, c, r);
    }
  }

  /** Doubling backslashes first and then escaping quotes is the same as
      escaping every character once: the backslash the second pass inserts
      is never doubled. */
  lemma {:induction false} EscapeIsPerCharacter(s: string)
    ensures Escape(s) == EscapeEach(s)
    decreases |s|
  {
    if s != [] {
      var first := if s[0] == '\\' then "\\\\" else [s[0]];
      var tail := ReplaceChar(s[1..], '\\', "\\\\");
      assert ReplaceChar(s, '\\', "\\\\") == first + tail;
      ReplaceCharAppend(first, tail, '"', "\\\"");
      assert ReplaceChar(first, '"', "\\\"") == EscapeChar(s[0]);
      EscapeIsPerCharacter(s[1..]);
    }
  }

  /** The other order would escape the backslash that the quote escape
      introduced, so the order of the two replacements matters. */
  lemma ReplacementOrderMatters()
    ensures ReplaceChar(ReplaceChar("\"", '"', "\\\""), '\\', "\\\\") == "\\\\\""
    ensures Escape("\"") == "\\\""
  {
  }

  // ---------------------------------------------------------------------
  // Reference decoder (RFC 8259 arrays of strings)
  // ---------------------------------------------------------------------

  /** Insignificant white space of RFC 8259, section 2. */
  predicate IsJsonSpace(c: char)
  {
    c == ' ' || c == '\t' || c == '\n' || c == '\r'
  }

  /** The characters RFC 8259, section 7 requires to be escaped. */
  predicate IsControl(c: char)
  {
    (c as int) < 0x20
  }

  predicate NoControl(s: string)
  {
    forall i :: 0 <= i < |s| ==> !IsControl(s[i])
  }

  function SkipSpace(s: string): (r: string)
    ensures |r| <= |s|
    ensures |r| > 0 ==> !IsJsonSpace(r[0])
    decreases |s|
  {
    if |s| > 0 && IsJsonSpace(s[0]) then SkipSpace(s[1..]) else s
  }

  /** The two-character escapes of RFC 8259, section 7 (the `\u` form is not
      accepted by this decoder). */
  function Unescape(c: char): Option<char>
  {
    if c == '"' then Some('"')
    else if c == '\\' then Some('\\')
    else if c == '/' then Some('/')
    else if c == 'b' then Some(8 as char)
    else if c == 'f' then Some(12 as char)
    else if c == 'n' then Some('\n')
    else if c == 'r' then Some('\r')
    else if c == 't' then Some('\t')
    else None
  }

  /** The characters of a string after its opening quote, up to and
      including the closing quote; gives the decoded text and what follows. */
  function ParseChars(s: string): (r: Option<(string, string)>)
    ensures r.Some? ==> |r.value.1| < |s|
    decreases |s|
  {
    if s == [] then None
    else if s[0] == '"' then Some(("", s[1..]))
    else if s[0] == '\\' then
      if |s| < 2 then None
      else match Unescape(s[1])
        case None => None
        case Some(c) =>
          match ParseChars(s[2..])
          case None => None
          case Some((text, rest)) => Some(([c] + text, rest))
    else if IsControl(s[0]) then None
    else match ParseChars(s[1..])
      case None => None
      case Some((text, rest)) => Some(([s[0]] + text, rest))
  }

  function ParseString(s: string): (r: Option<(string, string)>)
    ensures r.Some? ==> |r.value.1| < |s|
  {
    if |s| > 0 && s[0] == '"' then ParseChars(s[1..]) else None
  }

  /** One or more strings separated by commas, then the closing bracket. */
  function ParseItems(s: string): Option<(seq<string>, string)>
    decreases |s|
  {
    var p := ParseString(SkipSpace(s));
    if p.None? then None
    else
      var t := SkipSpace(p.value.1);
      if |t| > 0 && t[0] == ']' then Some(([p.value.0], t[1..]))
      else if |t| > 0 && t[0] == ',' then
        var q := ParseItems(t[1..]);
        if q.None? then None else Some(([p.value.0] + q.value.0, q.value.1))
      else None
  }

  /** A whole payload: an array of strings and nothing else. */
  function Decode(s: string): Option<seq<string>>
  {
    var t := SkipSpace(s);
    if |t| == 0 || t[0] != '[' then None
    else
      var u := SkipSpace(t[1..]);
      if |u| > 0 && u[0] == ']' then
        if SkipSpace(u[1..]) == "" then Some([]) else None
      else match ParseItems(u)
        case None => None
        case Some((vs, r)) => if SkipSpace(r) == "" then Some(vs) else None
  }

  // ---------------------------------------------------------------------
  // Round trip
  // ---------------------------------------------------------------------

  lemma {:induction false} ParseEscaped(e: string, rest: string)
    requires NoControl(e)
    ensures ParseChars(EscapeEach(e) + "\"" + rest) == Some((e, rest))
    decreases |e|
  {
    var s := EscapeEach(e) + "\"" + rest;
    if e == [] {
      assert s == "\"" + rest && s[1..] == rest;
    } else {
      var tail := EscapeEach(e[1..]) + "\"" + rest;
      assert s == EscapeChar(e[0]) + tail;
      ParseEscaped(e[1..], rest);
      if e[0] == '\\' || e[0] == '"' {
        assert s[0] == '\\' && s[1] == e[0] && s[2..] == tail;
      } else {
        assert s[0] == e[0] && s[1..] == tail;
      }
      assert [e[0]] + e[1..] == e;
    }
  }

  lemma {:induction false} ParseEscapedControl(e: string, rest: string)
    requires !NoControl(e)
    ensures ParseChars(EscapeEach(e) + "\"" + rest) == None
    decreases |e|
  {
    var s := EscapeEach(e) + "\"" + rest;
    var tail := EscapeEach(e[1..]) + "\"" + rest;
    assert s == EscapeChar(e[0]) + tail;
    if IsControl(e[0]) {
      assert s[0] == e[0];
    } else {
      assert !NoControl(e[1..]) by {
        var i :| 0 <= i < |e| && IsControl(e[i]);
        assert i > 0 && e[1..][i - 1] == e[i];
      }
      ParseEscapedControl(e[1..], rest);
      if e[0] == '\\' || e[0] == '"' {
        assert s[0] == '\\' && s[1] == e[0] && s[2..] == tail;
      } else {
        assert s[0] == e[0] && s[1..] == tail;
      }
    }
  }

  lemma ParseQuoted(e: string, rest: string)
    requires NoControl(e)
    ensures ParseString(Quote(e) + rest) == Some((e, rest))
  {
    EscapeIsPerCharacter(e);
    var s := Quote(e) + rest;
    assert s[1..] == EscapeEach(e) + "\"" + rest;
    ParseEscaped(e, rest);
  }

  lemma ParseQuotedControl(e: string, rest: string)
    requires !NoControl(e)
    ensures ParseString(Quote(e) + rest) == None
  {
    EscapeIsPerCharacter(e);
    var s := Quote(e) + rest;
    assert s[1..] == EscapeEach(e) + "\"" + rest;
    ParseEscapedControl(e, rest);
  }

  lemma {:induction false} JoinShape(names: seq<string>)
    requires |names| > 0
    ensures JoinComma(QuoteAll(names)) == Quote(names[0]) +
              (if |names| == 1 then "" else "," + JoinComma(QuoteAll(names[1..])))
  {
    var q := QuoteAll(names);
    assert q[0] == Quote(names[0]) && q[1..] == QuoteAll(names[1..]);
  }

  /** How `ParseItems` proceeds on a string that starts with a string
      token followed directly by `,` or `]`. */
  lemma ParseItemsStep(s: string, v: string, rest: string)
    requires |s| > 0 && s[0] == '"' && ParseString(s) == Some((v, rest))
    requires |rest| > 0 && (rest[0] == ',' || rest[0] == ']')
    ensures rest[0] == ']' ==> ParseItems(s) == Some(([v], rest[1..]))
    ensures rest[0] == ',' ==> ParseItems(s) == var q := ParseItems(rest[1..]);
              if q.None? then None else Some(([v] + q.value.0, q.value.1))
  {
    assert SkipSpace(s) == s;
    assert SkipSpace(rest) == rest;
  }

  /** The encoded items followed by the closing bracket and `rest`. */
  function ItemsText(names: seq<string>, rest: string): string
    requires |names| > 0
  {
    if |names| == 1 then Quote(names[0]) + ("]" + rest)
    else Quote(names[0]) + ("," + ItemsText(names[1..], rest))
  }

  lemma {:induction false} ItemsTextIsJoin(names: seq<string>, rest: string)
    requires |names| > 0
    ensures ItemsText(names, rest) == JoinComma(QuoteAll(names)) + "]" + rest
    decreases |names|
  {
    JoinShape(names);
    if |names| > 1 {
      ItemsTextIsJoin(names[1..], rest);
      Regroup(Quote(names[0]), JoinComma(QuoteAll(names[1..])), rest);
    }
  }

  lemma Regroup(q: string, j: string, rest: string)
    ensures q + "," + j + "]" + rest == q + ("," + (j + "]" + rest))
  {
  }

  /** No name of the list holds a control character. */
  predicate AllPlain(names: seq<string>)
  {
    names == [] || (NoControl(names[0]) && AllPlain(names[1..]))
  }

  lemma {:induction false} AllPlainIff(names: seq<string>)
    ensures AllPlain(names) <==> forall i :: 0 <= i < |names| ==> NoControl(names[i])
    decreases |names|
  {
    if names != [] {
      AllPlainIff(names[1..]);
      assert forall i :: 0 < i < |names| ==> names[i] == names[1..][i - 1];
    }
  }

  lemma {:induction false} ParseItemsEncoded(names: seq<string>, rest: string)
    requires |names| > 0 && AllPlain(names)
    ensures ParseItems(ItemsText(names, rest)) == Some((names, rest))
    decreases |names|
  {
    if |names| == 1 {
      ParseLast(names[0], rest, ItemsText(names, rest));
      assert [names[0]] == names;
    } else {
      ParseItemsEncoded(names[1..], rest);
      ParseNext(names[0], ItemsText(names[1..], rest), ItemsText(names, rest), names[1..], rest);
      assert [names[0]] + names[1..] == names;
    }
  }

  lemma ParseLast(e: string, rest: string, s: string)
    requires NoControl(e) && s == Quote(e) + ("]" + rest)
    ensures ParseItems(s) == Some(([e], rest))
  {
    ParseQuoted(e, "]" + rest);
    ParseItemsStep(s, e, "]" + rest);
    assert ("]" + rest)[1..] == rest;
  }

  lemma ParseNext(e: string, more: string, s: string, vs: seq<string>, rest: string)
    requires NoControl(e) && s == Quote(e) + ("," + more)
    requires ParseItems(more) == Some((vs, rest))
    ensures ParseItems(s) == Some(([e] + vs, rest))
  {
    ParseQuoted(e, "," + more);
    ParseItemsStep(s, e, "," + more);
    assert ("," + more)[1..] == more;
  }

  lemma ParseNextFails(e: string, more: string, s: string)
    requires NoControl(e) && s == Quote(e) + ("," + more)
    requires ParseItems(more) == None
    ensures ParseItems(s) == None
  {
    ParseQuoted(e, "," + more);
    ParseItemsStep(s, e, "," + more);
    assert ("," + more)[1..] == more;
  }

  lemma ParseHeadFails(e: string, after: string, s: string)
    requires !NoControl(e) && s == Quote(e) + after
    ensures ParseItems(s) == None
  {
    ParseQuotedControl(e, after);
    assert s[0] == '"' && SkipSpace(s) == s;
  }

  lemma {:induction false} ParseItemsEncodedControl(names: seq<string>, rest: string)
    requires |names| > 0 && !AllPlain(names)
    ensures ParseItems(ItemsText(names, rest)) == None
    decreases |names|
  {
    if !NoControl(names[0]) {
      var after := if |names| == 1 then "]" + rest else "," + ItemsText(names[1..], rest);
      ParseHeadFails(names[0], after, ItemsText(names, rest));
    } else {
      ParseItemsEncodedControl(names[1..], rest);
      ParseNextFails(names[0], ItemsText(names[1..], rest), ItemsText(names, rest));
    }
  }

  /** Decoding the payload gives back the names, in order, exactly when no
      name holds a control character; any such name makes the payload
      invalid JSON. */
  lemma DecodeEncode(names: seq<string>)
    ensures Decode(Encode(names)) == Some(names)
            <==> forall i :: 0 <= i < |names| ==> NoControl(names[i])
  {
    var s := Encode(names);
    if names == [] {
      assert s == "[]";
      assert SkipSpace(s) == s && SkipSpace(s[1..]) == "]";
    } else {
      ItemsTextIsJoin(names, "");
      DecodeItems(s, ItemsText(names, ""));
      AllPlainIff(names);
      if AllPlain(names) {
        ParseItemsEncoded(names, "");
      } else {
        ParseItemsEncodedControl(names, "");
      }
    }
  }

  /** A payload `[` + items decodes as the items parse, when the items
      start with a string token. */
  lemma DecodeItems(s: string, items: string)
    requires s == "[" + items && |items| > 0 && items[0] == '"'
    ensures Decode(s) == var p := ParseItems(items);
              if p.None? then None else if SkipSpace(p.value.1) == "" then Some(p.value.0) else None
  {
    assert SkipSpace(s) == s && s[1..] == items && SkipSpace(items) == items;
  }

  /** The escaped forms of three sample names. */
  lemma EscapeExamples()
    ensures Escape("a") == "a"
    ensures Escape("b c") == "b c"
    ensures Escape("d\"e") == "d\\\"e"
  {
    EscapeIsPerCharacter("a");
    EscapeIsPerCharacter("b c");
    EscapeIsPerCharacter("d\"e");
    assert EscapeEach("d\"e") == "d" + EscapeEach("\"e");
    assert EscapeEach("\"e") == "\\\"" + EscapeEach("e");
  }

  /** An empty directory is the empty array. */
  lemma EmptyListingEncoding()
    ensures Encode([]) == "[]"
    ensures Decode("[]") == Some([])
  {
    assert SkipSpace("[]") == "[]";
    assert SkipSpace("]") == "]";
  }

  /** The same listing decodes back to its three names, in order. */
  lemma ListingExampleRoundTrip()
    ensures Decode(Encode(["a", "b c", "d\"e"])) == Some(["a", "b c", "d\"e"])
  {
    var names := ["a", "b c", "d\"e"];
    assert NoControl(names[0]) && NoControl(names[1]) && NoControl(names[2]);
    DecodeEncode(names);
  }

  // ---------------------------------------------------------------------
  // Which characters reach the payload
  // ---------------------------------------------------------------------

  /** Apart from the escape characters, the escaped form has the same
      characters as the name. */
  lemma {:induction false} EscapeKeepsCharacters(s: string, c: char)
    requires c != '\\' && c != '"'
    ensures c in EscapeEach(s) <==> c in s
    decreases |s|
  {
    if s != [] {
      EscapeKeepsCharacters(s[1..], c);
      assert EscapeEach(s) == EscapeChar(s[0]) + EscapeEach(s[1..]);
      assert s == [s[0]] + s[1..];
    }
  }

  lemma {:induction false} JoinHasCharacter(names: seq<string>, c: char)
    requires c != '\\' && c != '"' && c != ','
    ensures c in JoinComma(QuoteAll(names)) <==> exists i :: 0 <= i < |names| && c in names[i]
    decreases |names|
  {
    if names != [] {
      JoinShape(names);
      EscapeIsPerCharacter(names[0]);
      EscapeKeepsCharacters(names[0], c);
      assert c in Quote(names[0]) <==> c in names[0];
      JoinHasCharacter(names[1..], c);
      if exists i :: 0 <= i < |names| && c in names[i] {
        var i :| 0 <= i < |names| && c in names[i];
        if i > 0 { assert names[1..][i - 1] == names[i]; }
      }
      if exists i :: 0 <= i < |names[1..]| && c in names[1..][i] {
        var i :| 0 <= i < |names[1..]| && c in names[1..][i];
        assert names[i + 1] == names[1..][i];
      }
    }
  }

  /** The payload holds a NUL character exactly when some name does; this
      is the case in which `CString::new` refuses it. */
  lemma NulInPayload(names: seq<string>)
    ensures '\0' in Encode(names) <==> exists i :: 0 <= i < |names| && '\0' in names[i]
  {
    JoinHasCharacter(names, '\0');
  }
}
