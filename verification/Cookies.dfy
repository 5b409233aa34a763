/**
 * The two readers of the `Cookie` header: the server-side parser behind the double-submit
 * check, and the client-side regular expression that picks the token to submit.
 */
module Cookies {
  import opened Common
  import opened Text

  const CSRF_COOKIE_NAME := "axiam_csrf"

  // ---------- The parser ----------

  /** Assigning to a member of a plain object; `__proto__` is not an own member. */
  function Assign(cookies: map<string, string>, name: string, value: string): map<string, string> {
    if name == "__proto__" then cookies else cookies[name := value]
  }

  /** One `;`-separated piece of the header. */
  function WithPair(cookies: map<string, string>, pair: string): map<string, string> {
    var trimmed := Trim(pair);
    var eq := IndexOf(trimmed, '=');
    if trimmed == "" || eq == -1 then cookies
    else
      var name, value := Trim(trimmed[..eq]), Trim(trimmed[eq + 1..]);
      if name == "" then cookies else Assign(cookies, name, value)
  }

  function WithPairs(cookies: map<string, string>, pairs: seq<string>): map<string, string> {
    if pairs == [] then cookies
    else WithPair(WithPairs(cookies, pairs[..|pairs| - 1]), pairs[|pairs| - 1])
  }

  function Parse(header: string): map<string, string> {
    WithPairs(map[], Split(header, ';'))
  }

  lemma OneMorePair(cookies: map<string, string>, pairs: seq<string>, i: nat)
    requires i < |pairs|
    ensures WithPairs(cookies, pairs[..i + 1]) == WithPair(WithPairs(cookies, pairs[..i]), pairs[i])
  {
    assert pairs[..i + 1][..i] == pairs[..i];
  }

  method ParseCookieHeader(header: Option<string>) returns (cookies: map<string, string>)
    ensures cookies == if header.Some? then Parse(header.value) else map[]
  {
    cookies := map[];
    if header.None? {
      return;
    }
    if header.value == "" {
      assert Split("", ';')[..0] == [];
      return;
    }
    var pairs := Split(header.value, ';');
    for i := 0 to |pairs|
      invariant cookies == WithPairs(map[], pairs[..i])
    {
      OneMorePair(map[], pairs, i);
      var trimmed := Trim(pairs[i]);
      if trimmed == "" {
        continue;
      }
      var eqIndex := IndexOf(trimmed, '=');
      if eqIndex == -1 {
        continue;
      }
      var name, value := Trim(trimmed[..eqIndex]), Trim(trimmed[eqIndex + 1..]);
      if name != "" {
        cookies := Assign(cookies, name, value);
      }
    }
    assert pairs[..|pairs|] == pairs;
  }

  // ---------- What one piece says ----------

  lemma {:induction false} IndexOfFirst(name: string, rest: string, c: char)
    requires c !in name
    ensures IndexOf(name + [c] + rest, c) == |name|
  {
    var s := name + [c] + rest;
    if name != "" {
      IndexOfFirst(name[1..], rest, c);
      assert s[1..] == name[1..] + [c] + rest;
    }
  }

  /** A name and a value, set off by an equals sign, with any whitespace around either. */
  ghost predicate Says(piece: string, name: string, value: string) {
    exists a, b, c, d :: Spaced(piece, a, name, b, c, value, d)
  }

  predicate Spaced(piece: string, a: string, name: string, b: string, c: string, value: string, d: string) {
    && piece == a + name + b + "=" + c + value + d
    && AllSpace(a) && AllSpace(b) && AllSpace(c) && AllSpace(d)
    && name != "" && Trimmed(name) && '=' !in name && Trimmed(value)
  }

  lemma SpacedTrims(piece: string, a: string, name: string, b: string, c: string, value: string, d: string)
    requires Spaced(piece, a, name, b, c, value, d)
    ensures Trim(piece) == name + b + "=" + if value == "" then "" else c + value
  {
    var inner := name + b + "=" + if value == "" then "" else c + value;
    var trail := if value == "" then c + d else d;
    assert piece == a + inner + trail;
    assert inner[0] == name[0];
    assert inner[|inner| - 1] == if value == "" then '=' else value[|value| - 1];
    TrimOfPadded(a, inner, trail);
  }

  lemma PieceIsRead(cookies: map<string, string>, piece: string, name: string, value: string)
    requires Says(piece, name, value)
    ensures WithPair(cookies, piece) == if name == "__proto__" then cookies else cookies[name := value]
  {
    var a, b, c, d :| Spaced(piece, a, name, b, c, value, d);
    var rest := if value == "" then "" else c + value;
    SpacedTrims(piece, a, name, b, c, value, d);
    IndexOfFirst(name + b, rest, '=');
    var trimmed := name + b + "=" + rest;
    assert trimmed == (name + b) + ['='] + rest;
    assert trimmed[..|name + b|] == name + b && trimmed[|name + b| + 1..] == rest;
    TrimOfPadded("", name, b);
    TrimOfPadded(c, value, "");
    assert "" + name + b == name + b && c + value + "" == c + value;
    TrimFixes("");
  }

  lemma OtherPieceIsSkipped(cookies: map<string, string>, piece: string)
    requires forall name, value :: !Says(piece, name, value)
    ensures WithPair(cookies, piece) == cookies
  {
    var trimmed, eq := Trim(piece), IndexOf(Trim(piece), '=');
    if eq != -1 && Trim(trimmed[..eq]) != "" {
      var left, right := trimmed[..eq], trimmed[eq + 1..];
      assert trimmed == left + "=" + right;
      var a, d := TrimCuts(piece);
      NamedPieceSays(piece, a, d, left, right);
    }
  }

  lemma NamedPieceSays(piece: string, a: string, d: string, left: string, right: string)
    requires piece == a + (left + "=" + right) + d && AllSpace(a) && AllSpace(d)
    requires '=' !in left && Trim(left) != ""
    ensures Says(piece, Trim(left), Trim(right))
  {
    var a', b := TrimCuts(left);
    var c, d' := TrimCuts(right);
    SaysInside(piece, a, d, left, right, a', Trim(left), b, c, Trim(right), d');
  }

  lemma SaysInside(piece: string, a: string, d: string, left: string, right: string,
                   a': string, name: string, b: string, c: string, value: string, d': string)
    requires piece == a + (left + "=" + right) + d && left == a' + name + b && right == c + value + d'
    requires AllSpace(a) && AllSpace(a') && AllSpace(b) && AllSpace(c) && AllSpace(d') && AllSpace(d)
    requires name != "" && Trimmed(name) && Trimmed(value) && '=' !in left
    ensures Says(piece, name, value)
  {
    Regroup(a, a', name, b, c, value, d', d);
    NotWithin(a', name, b, '=');
    SpacesJoin(a, a');
    SpacesJoin(d', d);
    assert Spaced(piece, a + a', name, b, c, value, d' + d);
  }

  lemma NotWithin(a: string, s: string, b: string, c: char)
    requires c !in a + s + b
    ensures c !in s
  {
    assert forall i :: 0 <= i < |s| ==> s[i] == (a + s + b)[|a| + i];
  }

  lemma SpacesJoin(a: string, b: string)
    requires AllSpace(a) && AllSpace(b)
    ensures AllSpace(a + b)
  {
  }

  lemma Regroup(a: string, a': string, name: string, b: string, c: string, value: string, d': string, d: string)
    ensures a + (a' + name + b + "=" + (c + value + d')) + d == a + a' + name + b + "=" + c + value + (d' + d)
  {
    assert a + (a' + name + b + "=" + (c + value + d')) == a + a' + name + b + "=" + c + value + d';
  }

  // ---------- Composition ----------

  /** Later cookies overlay earlier ones, piece by piece. */
  lemma {:induction false} OverlayPairs(cookies: map<string, string>, pairs: seq<string>)
    ensures WithPairs(cookies, pairs) == cookies + WithPairs(map[], pairs)
  {
    if pairs != [] {
      OverlayPairs(cookies, pairs[..|pairs| - 1]);
    }
  }

  lemma {:induction false} WithPairsConcat(cookies: map<string, string>, a: seq<string>, b: seq<string>)
    ensures WithPairs(cookies, a + b) == WithPairs(WithPairs(cookies, a), b)
  {
    if b == [] {
      assert a + b == a;
    } else {
      assert (a + b)[..|a + b| - 1] == a + b[..|b| - 1];
      WithPairsConcat(cookies, a, b[..|b| - 1]);
    }
  }

  /** For all strings: what comes after a semicolon overlays what comes before it. */
  lemma ParseComposes(a: string, b: string)
    ensures Parse(a + ";" + b) == Parse(a) + Parse(b)
  {
    SplitAt(a, b, ';');
    WithPairsConcat(map[], Split(a, ';'), Split(b, ';'));
    OverlayPairs(Parse(a), Split(b, ';'));
  }

  // ---------- Printing ----------

  datatype Cookie = Cookie(name: string, value: string)

  /** A pair that survives the wire: trimmed, a name, no separators where they would be read. */
  predicate Printable(c: Cookie) {
    && c.name != "" && c.name != "__proto__" && Trimmed(c.name) && Trimmed(c.value)
    && ';' !in c.name && '=' !in c.name && ';' !in c.value
  }

  function PrintOne(c: Cookie): string {
    c.name + "=" + c.value
  }

  /** The pairs joined by a semicolon and a space. */
  function Print(cookies: seq<Cookie>): string {
    if cookies == [] then ""
    else if |cookies| == 1 then PrintOne(cookies[0])
    else PrintOne(cookies[0]) + ";" + (" " + Print(cookies[1..]))
  }

  function LastWins(cookies: seq<Cookie>): map<string, string> {
    if cookies == [] then map[]
    else map[cookies[0].name := cookies[0].value] + LastWins(cookies[1..])
  }

  lemma TrimPrinted(c: Cookie)
    requires Printable(c)
    ensures Trim(PrintOne(c)) == PrintOne(c) && Trim(" " + PrintOne(c)) == PrintOne(c)
  {
    var s := PrintOne(c);
    assert Trimmed(s) by {
      assert s[0] == c.name[0];
      assert s[|s| - 1] == if c.value == "" then '=' else c.value[|c.value| - 1];
    }
    TrimFixes(s);
    assert (" " + s)[1..] == s;
  }

  lemma ParsePrintedPair(c: Cookie, pair: string)
    requires Printable(c) && (pair == PrintOne(c) || pair == " " + PrintOne(c))
    ensures WithPair(map[], pair) == map[c.name := c.value]
  {
    TrimPrinted(c);
    IndexOfFirst(c.name, c.value, '=');
    var s := PrintOne(c);
    assert s[..|c.name|] == c.name && s[|c.name| + 1..] == c.value;
    TrimFixes(c.name);
    TrimFixes(c.value);
  }

  /** The pieces of a printed header: each pair, all but the first after a space. */
  lemma {:induction false} SplitPrinted(cookies: seq<Cookie>, lead: string)
    requires cookies != [] && (forall c :: c in cookies ==> Printable(c)) && ';' !in lead
    ensures Split(lead + Print(cookies), ';') ==
            [lead + PrintOne(cookies[0])] +
            if |cookies| == 1 then [] else Split(" " + Print(cookies[1..]), ';')
  {
    var first := lead + PrintOne(cookies[0]);
    assert Printable(cookies[0]);
    SplitWithout(first, ';');
    if |cookies| > 1 {
      var rest := " " + Print(cookies[1..]);
      assert lead + Print(cookies) == first + [';'] + rest;
      SplitAt(first, rest, ';');
    }
  }

  lemma BlankPiece(lead: string)
    requires lead == "" || lead == " "
    ensures WithPair(map[], lead) == map[]
  {
    assert lead == " " ==> lead[1..] == "";
    assert TrimStart(lead) == "";
  }

  lemma OnePiece(piece: string)
    ensures WithPairs(map[], [piece]) == WithPair(map[], piece)
  {
    assert [piece][..0] == [];
  }

  /** The first piece is read on its own, the rest overlays it. */
  lemma ParsePieces(first: string, rest: seq<string>, c: Cookie)
    requires WithPair(map[], first) == map[c.name := c.value]
    ensures WithPairs(map[], [first] + rest) == map[c.name := c.value] + WithPairs(map[], rest)
  {
    OnePiece(first);
    WithPairsConcat(map[], [first], rest);
    OverlayPairs(map[c.name := c.value], rest);
  }

  lemma {:induction false} ParsePrintedAfter(cookies: seq<Cookie>, lead: string)
    requires forall c :: c in cookies ==> Printable(c)
    requires lead == "" || lead == " "
    ensures Parse(lead + Print(cookies)) == LastWins(cookies)
  {
    if cookies == [] {
      assert lead + Print(cookies) == lead;
      SplitWithout(lead, ';');
      OnePiece(lead);
      BlankPiece(lead);
    } else {
      var c := cookies[0];
      var first := lead + PrintOne(c);
      var rest := if |cookies| == 1 then [] else Split(" " + Print(cookies[1..]), ';');
      SplitPrinted(cookies, lead);
      assert first == if lead == "" then PrintOne(c) else " " + PrintOne(c);
      ParsePrintedPair(c, first);
      ParsePieces(first, rest, c);
      if |cookies| > 1 {
        ParsePrintedAfter(cookies[1..], " ");
      }
    }
  }

  /** Parsing undoes printing, the last of several pairs of one name winning. */
  lemma ParseUndoesPrint(cookies: seq<Cookie>)
    requires forall c :: c in cookies ==> Printable(c)
    ensures Parse(Print(cookies)) == LastWins(cookies)
  {
    ParsePrintedAfter(cookies, "");
    assert "" + Print(cookies) == Print(cookies);
  }

  // ---------- The double-submit check ----------

  /** The comparison of the two byte strings is plain equality here. */
  predicate IsCsrfValid(cookieHeader: Option<string>, csrfHeaderValue: Option<string>) {
    && csrfHeaderValue.Some? && csrfHeaderValue.value != ""
    && cookieHeader.Some?
    && var cookies := Parse(cookieHeader.value);
       CSRF_COOKIE_NAME in cookies && cookies[CSRF_COOKIE_NAME] != ""
       && csrfHeaderValue.value == cookies[CSRF_COOKIE_NAME]
  }

  ghost predicate Names(piece: string, name: string) {
    exists value :: Says(piece, name, value)
  }

  ghost function ValueSaid(piece: string, name: string): (value: string)
    requires Names(piece, name)
    ensures Says(piece, name, value)
  {
    var value :| Says(piece, name, value); value
  }

  /** What the last piece that names the cookie says. */
  ghost function LastFit(pieces: seq<string>, name: string): Option<string> {
    if pieces == [] then None
    else if Names(pieces[|pieces| - 1], name) then Some(ValueSaid(pieces[|pieces| - 1], name))
    else LastFit(pieces[..|pieces| - 1], name)
  }

  function ValueIn(cookies: map<string, string>, name: string): Option<string> {
    if name in cookies then Some(cookies[name]) else None
  }

  /** The token among parsed cookies. */
  function TokenIn(cookies: map<string, string>): Option<string> {
    ValueIn(cookies, "axiam_csrf")
  }

  /** For all headers the parser ends, for each name, with the value of the last piece that says one. */
  lemma {:induction false} ParsesLastFit(pieces: seq<string>, name: string)
    requires name != "__proto__"
    ensures ValueIn(WithPairs(map[], pieces), name) == LastFit(pieces, name)
  {
    if pieces != [] {
      ParsesLastFit(pieces[..|pieces| - 1], name);
      ReadsPiece(WithPairs(map[], pieces[..|pieces| - 1]), pieces[|pieces| - 1], name);
    }
  }

  lemma ReadsPiece(cookies: map<string, string>, piece: string, name: string)
    requires name != "__proto__"
    ensures ValueIn(WithPair(cookies, piece), name) ==
            if Names(piece, name) then Some(ValueSaid(piece, name)) else ValueIn(cookies, name)
  {
    if Names(piece, name) {
      PieceIsRead(cookies, piece, name, ValueSaid(piece, name));
    } else if exists other :: Names(piece, other) {
      var other :| Names(piece, other);
      PieceIsRead(cookies, piece, other, ValueSaid(piece, other));
    } else {
      forall other, value
        ensures !Says(piece, other, value)
      {
        assert !Names(piece, other);
      }
      OtherPieceIsSkipped(cookies, piece);
    }
  }

  /**
   * For every request, with or without either header: the check passes exactly when both are there and
   * the submitted value is not empty and is the parsed token.
   */
  lemma ValidIffToken(cookieHeader: Option<string>, submitted: Option<string>)
    ensures IsCsrfValid(cookieHeader, submitted) <==>
            && cookieHeader.Some? && submitted.Some? && submitted.value != ""
            && TokenIn(Parse(cookieHeader.value)) == submitted
  {
  }

  // ---------- The client-side reader ----------

  const CSRF_PREFIX := CSRF_COOKIE_NAME + "="

  /**
   * The regular expression tried from every position on, except that `^` no longer matches.
   * The result is what follows the equals sign. `\s*` can only match the whole run of spaces,
   * as the name does not start with one.
   */
  function MatchAfterSemicolon(s: string): Option<string> {
    if s == "" then None
    else if s[0] == ';' && CSRF_PREFIX <= TrimStart(s[1..]) then Some(TrimStart(s[1..])[|CSRF_PREFIX|..])
    else MatchAfterSemicolon(s[1..])
  }

  /** The captured group of the leftmost match: everything up to the next semicolon. */
  function Captured(s: string): Option<string> {
    var rest := if CSRF_PREFIX <= s then Some(s[|CSRF_PREFIX|..]) else MatchAfterSemicolon(s);
    if rest.None? then None else Some(Split(rest.value, ';')[0])
  }

  /** `decode` is `decodeURIComponent`; it throws where it gives nothing. */
  datatype Reading = NoCookie | Token(value: string) | Malformed

  function ReadCsrfCookie(cookieString: string, decode: string -> Option<string>): Reading {
    var captured := Captured(cookieString);
    if captured.None? then NoCookie
    else if decode(captured.value).None? then Malformed
    else Token(decode(captured.value).value)
  }

  /** Lower-casing of ASCII letters; no other character lower-cases to a letter of the four methods. */
  function ToLower(s: string): string {
    seq(|s|, i requires 0 <= i < |s| =>
      if 'A' <= s[i] <= 'Z' then (s[i] as int + 32) as char else s[i])
  }

  predicate ChangesState(verb: string) {
    ToLower(verb) in {"post", "put", "patch", "delete"}
  }

  function CsrfHeaderForMethod(verb: string, cookieString: string, decode: string -> Option<string>): Reading {
    if ChangesState(verb) then ReadCsrfCookie(cookieString, decode) else NoCookie
  }

  /** The lower-case name, in any case of its letters. */
  predicate AnyCase(verb: string, name: string) {
    |verb| == |name| && forall i :: 0 <= i < |name| ==> verb[i] == name[i] || verb[i] as int + 32 == name[i] as int
  }

  lemma LowerIff(verb: string, name: string)
    requires forall i :: 0 <= i < |name| ==> 'a' <= name[i] <= 'z'
    ensures ToLower(verb) == name <==> AnyCase(verb, name)
  {
    if AnyCase(verb, name) {
      assert forall i :: 0 <= i < |name| ==> ToLower(verb)[i] == name[i];
    }
    if ToLower(verb) == name {
      assert forall i :: 0 <= i < |verb| ==> ToLower(verb)[i] == name[i];
    }
  }

  /** The token is sent with the four methods that change state, in any case of letters, and no other. */
  lemma SentWithFourMethods(verb: string, cookieString: string, decode: string -> Option<string>)
    ensures ChangesState(verb) <==>
            AnyCase(verb, "post") || AnyCase(verb, "put") || AnyCase(verb, "patch") || AnyCase(verb, "delete")
    ensures CsrfHeaderForMethod(verb, cookieString, decode).Token? ==> ChangesState(verb)
    ensures !ChangesState(verb) ==> CsrfHeaderForMethod(verb, cookieString, decode) == NoCookie
  {
    LowerIff(verb, "post");
    LowerIff(verb, "put");
    LowerIff(verb, "patch");
    LowerIff(verb, "delete");
  }

  // ---------- The expression reads the first piece that fits ----------

  /** The value of the first piece that names the cookie; only later pieces may start with spaces. */
  function FirstFit(pieces: seq<string>, atStart: bool): Option<string> {
    if pieces == [] then None
    else
      var piece := if atStart then pieces[0] else TrimStart(pieces[0]);
      if CSRF_PREFIX <= piece then Some(piece[|CSRF_PREFIX|..]) else FirstFit(pieces[1..], false)
  }

  lemma {:induction false} FirstPiece(s: string)
    ensures var h := Split(s, ';')[0]; ';' !in h && h <= s && (|h| < |s| ==> s[|h|] == ';')
  {
    if s != "" {
      FirstPiece(s[1..]);
    }
  }

  lemma {:induction false} FirstPieceOf(h: string, s: string)
    requires ';' !in h && h <= s && (|h| < |s| ==> s[|h|] == ';')
    ensures Split(s, ';')[0] == h
  {
    if h != "" {
      FirstPieceOf(h[1..], s[1..]);
      assert h == [h[0]] + h[1..];
    }
  }

  /** The prefix fits a text exactly when it fits its first piece, and what is captured stays within it. */
  lemma PrefixWithinPiece(s: string)
    ensures var h := Split(s, ';')[0];
            && (CSRF_PREFIX <= s <==> CSRF_PREFIX <= h)
            && (CSRF_PREFIX <= s ==> Split(s[|CSRF_PREFIX|..], ';')[0] == h[|CSRF_PREFIX|..])
  {
    var h := Split(s, ';')[0];
    FirstPiece(s);
    assert ';' !in CSRF_PREFIX;
    if CSRF_PREFIX <= s {
      assert forall i :: 0 <= i < |CSRF_PREFIX| ==> s[i] == CSRF_PREFIX[i] && s[i] != ';';
      FirstPieceOf(h[|CSRF_PREFIX|..], s[|CSRF_PREFIX|..]);
    }
  }

  lemma {:induction false} TrimStartFirstPiece(s: string)
    ensures Split(TrimStart(s), ';')[0] == TrimStart(Split(s, ';')[0])
  {
    if s != "" && IsSpace(s[0]) {
      TrimStartFirstPiece(s[1..]);
      var h := Split(s, ';')[0];
      assert h[1..] == Split(s[1..], ';')[0];
    } else {
      FirstPiece(s);
    }
  }

  lemma {:induction false} MatchIsFirstFit(s: string)
    ensures var rest := MatchAfterSemicolon(s);
            FirstFit(Split(s, ';')[1..], false) ==
            if rest.None? then None else Some(Split(rest.value, ';')[0])
  {
    if s != "" {
      var tail := s[1..];
      MatchIsFirstFit(tail);
      if s[0] == ';' {
        assert Split(s, ';')[1..] == Split(tail, ';');
        PrefixWithinPiece(TrimStart(tail));
        TrimStartFirstPiece(tail);
      } else {
        assert Split(s, ';')[1..] == Split(tail, ';')[1..];
      }
    }
  }

  /** For all strings the expression captures what the first fitting piece holds. */
  lemma CapturesFirstFit(s: string)
    ensures Captured(s) == FirstFit(Split(s, ';'), true)
  {
    MatchIsFirstFit(s);
    PrefixWithinPiece(s);
  }

  // ---------- Both readers on a printed header ----------

  /** The value of the first pair of the name. */
  function FirstNamed(cookies: seq<Cookie>, name: string): Option<string> {
    if cookies == [] then None
    else if cookies[0].name == name then Some(cookies[0].value)
    else FirstNamed(cookies[1..], name)
  }

  lemma PrefixOfPrinted(c: Cookie)
    requires Printable(c)
    ensures CSRF_PREFIX <= PrintOne(c) <==> c.name == CSRF_COOKIE_NAME
    ensures c.name == CSRF_COOKIE_NAME ==> PrintOne(c)[|CSRF_PREFIX|..] == c.value
  {
    var s := PrintOne(c);
    IndexOfFirst(c.name, c.value, '=');
    if CSRF_PREFIX <= s {
      assert '=' !in CSRF_COOKIE_NAME;
      IndexOfFirst(CSRF_COOKIE_NAME, s[|CSRF_PREFIX|..], '=');
      assert s == CSRF_COOKIE_NAME + ['='] + s[|CSRF_PREFIX|..];
      assert c.name == s[..|c.name|] == CSRF_COOKIE_NAME;
    }
  }

  lemma {:induction false} FirstFitPrinted(cookies: seq<Cookie>, atStart: bool)
    requires cookies != [] && forall c :: c in cookies ==> Printable(c)
    ensures FirstFit(Split((if atStart then "" else " ") + Print(cookies), ';'), atStart) ==
            FirstNamed(cookies, CSRF_COOKIE_NAME)
  {
    var lead := if atStart then "" else " ";
    var c := cookies[0];
    SplitPrinted(cookies, lead);
    PrefixOfPrinted(c);
    var pieces := Split(lead + Print(cookies), ';');
    assert (if atStart then pieces[0] else TrimStart(pieces[0])) == PrintOne(c) by {
      assert pieces[0] == lead + PrintOne(c);
      assert (" " + PrintOne(c))[1..] == PrintOne(c) && PrintOne(c)[0] == c.name[0];
      assert "" + PrintOne(c) == PrintOne(c);
    }
    if |cookies| > 1 {
      FirstFitPrinted(cookies[1..], false);
      assert pieces[1..] == Split(" " + Print(cookies[1..]), ';');
    } else {
      assert pieces[1..] == [];
    }
  }

  lemma CapturedFromPrinted(cookies: seq<Cookie>)
    requires cookies != [] && forall c :: c in cookies ==> Printable(c)
    ensures Captured(Print(cookies)) == FirstNamed(cookies, CSRF_COOKIE_NAME)
  {
    CapturesFirstFit(Print(cookies));
    FirstFitPrinted(cookies, true);
    assert "" + Print(cookies) == Print(cookies);
  }

  /** The token that the client submits is accepted by the server. */
  ghost predicate DoubleSubmitPasses(verb: string, header: string, decode: string -> Option<string>) {
    var token := CsrfHeaderForMethod(verb, header, decode);
    token.Token? && IsCsrfValid(Some(header), Some(token.value))
  }

  lemma PassesIff(verb: string, header: string, decode: string -> Option<string>)
    requires ChangesState(verb)
    ensures DoubleSubmitPasses(verb, header, decode) <==>
            var submitted, expected := Captured(header), TokenIn(Parse(header));
            && submitted.Some? && expected.Some? && expected.value != ""
            && decode(submitted.value) == expected
  {
    var token := CsrfHeaderForMethod(verb, header, decode);
    if token.Token? {
      ValidIffToken(Some(header), Some(token.value));
    }
  }

  /**
   * For every header: the submitted token passes exactly when what the expression finds in the first
   * piece that fits decodes to what the last piece holds that names the cookie, and that is not empty.
   */
  lemma DoubleSubmitIff(verb: string, header: string, decode: string -> Option<string>)
    requires ChangesState(verb)
    ensures DoubleSubmitPasses(verb, header, decode) <==>
            var submitted, expected := FirstFit(Split(header, ';'), true), LastFit(Split(header, ';'), "axiam_csrf");
            && submitted.Some? && expected.Some? && expected.value != ""
            && decode(submitted.value) == expected
  {
    CapturesFirstFit(header);
    ParsesLastFit(Split(header, ';'), "axiam_csrf");
    PassesIff(verb, header, decode);
  }

  /**
   * On any printed header the submitted token passes exactly when the first value of the cookie
   * decodes to the last one, and that is not empty.
   */
  lemma DoubleSubmitOnPrinted(verb: string, cookies: seq<Cookie>, decode: string -> Option<string>)
    requires ChangesState(verb) && forall c :: c in cookies ==> Printable(c)
    ensures DoubleSubmitPasses(verb, Print(cookies), decode) <==>
            && CSRF_COOKIE_NAME in LastWins(cookies)
            && LastWins(cookies)[CSRF_COOKIE_NAME] != ""
            && FirstNamed(cookies, CSRF_COOKIE_NAME).Some?
            && decode(FirstNamed(cookies, CSRF_COOKIE_NAME).value) == Some(LastWins(cookies)[CSRF_COOKIE_NAME])
  {
    ParseUndoesPrint(cookies);
    if cookies != [] {
      CapturedFromPrinted(cookies);
    }
  }

  lemma {:induction false} OnlyOneNamed(cookies: seq<Cookie>, i: nat)
    requires i < |cookies|
    requires forall j :: 0 <= j < |cookies| && cookies[j].name == cookies[i].name ==> j == i
    ensures FirstNamed(cookies, cookies[i].name) == Some(cookies[i].value)
    ensures cookies[i].name in LastWins(cookies) && LastWins(cookies)[cookies[i].name] == cookies[i].value
  {
    if i > 0 {
      var rest := cookies[1..];
      assert rest[i - 1] == cookies[i];
      forall j | 0 <= j < |rest| && rest[j].name == rest[i - 1].name
        ensures j == i - 1
      {
        assert cookies[j + 1].name == cookies[i].name;
      }
      OnlyOneNamed(rest, i - 1);
    } else {
      NotNamed(cookies[1..], cookies[0].name);
    }
  }

  lemma {:induction false} NotNamed(cookies: seq<Cookie>, name: string)
    requires forall j :: 0 <= j < |cookies| ==> cookies[j].name != name
    ensures name !in LastWins(cookies)
  {
    if cookies != [] {
      NotNamed(cookies[1..], name);
    }
  }

  /** A single non-empty percent-free cookie always passes, wherever it stands among the others. */
  lemma SingleTokenPasses(verb: string, cookies: seq<Cookie>, i: nat, decode: string -> Option<string>)
    requires ChangesState(verb) && i < |cookies| && forall c :: c in cookies ==> Printable(c)
    requires cookies[i].name == "axiam_csrf" && cookies[i].value != "" && '%' !in cookies[i].value
    requires forall j :: 0 <= j < |cookies| && cookies[j].name == "axiam_csrf" ==> j == i
    requires forall s :: '%' !in s ==> decode(s) == Some(s)
    ensures DoubleSubmitPasses(verb, Print(cookies), decode)
  {
    OnlyOneNamed(cookies, i);
    DoubleSubmitOnPrinted(verb, cookies, decode);
  }
}
