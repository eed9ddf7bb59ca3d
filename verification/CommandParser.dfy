/** The command-line tokenizer: a name and arguments separated by any white space. */
module CommandParsing {
  import opened CharClasses

  datatype ParsedCommand = ParsedCommand(name: string, args: seq<string>)

  /** The longest prefix without white space. */
  function Word(s: string): (w: string)
    ensures w <= s && (|w| < |s| ==> IsSpace(s[|w|])) && forall i :: 0 <= i < |w| ==> !IsSpace(w[i])
  {
    if s == "" || IsSpace(s[0]) then "" else [s[0]] + Word(s[1..])
  }

  /** What repeated `>>` extracts. */
  function Tokens(s: string): seq<string>
    decreases |s|
  {
    var t := SkipSpaces(s);
    if t == "" then [] else [Word(t)] + Tokens(t[|Word(t)|..])
  }

  function Command(tokens: seq<string>): ParsedCommand {
    if tokens == [] then ParsedCommand("", []) else ParsedCommand(tokens[0], tokens[1..])
  }

  /** One `stream >> token`; the result is the unread text. */
  method Extract(s: string) returns (ok: bool, token: string, rest: string)
    ensures ok <==> SkipSpaces(s) != ""
    ensures ok ==> token == Word(SkipSpaces(s)) && rest == SkipSpaces(s)[|token|..] && |rest| < |s|
  {
    var i := 0;
    while i < |s| && IsSpace(s[i])
      invariant i <= |s| && SkipSpaces(s) == SkipSpaces(s[i..])
    {
      i := i + 1;
    }
    var t := s[i..];
    assert SkipSpaces(s) == t;
    ok := t != "";
    var k := 0;
    while k < |t| && !IsSpace(t[k])
      invariant k <= |t| && |Word(t)| == k + |Word(t[k..])|
    {
      k := k + 1;
    }
    token, rest := t[..k], t[k..];
  }

  /** All arguments are those pushed so far and, if the last extraction succeeded, the current token and
      the tokens of the unread text. */
  ghost predicate Scanning(all: seq<string>, args: seq<string>, ok: bool, token: string, rest: string) {
    all == if ok then args + [token] + Tokens(rest) else args
  }

  lemma ScanOne(all: seq<string>, args: seq<string>, ok: bool, token: string, rest: string)
    requires ok <==> SkipSpaces(rest) != ""
    requires all == args + Tokens(rest)
    requires ok ==> token == Word(SkipSpaces(rest))
    ensures Scanning(all, args, ok, token, if ok then SkipSpaces(rest)[|token|..] else "")
  {
  }

  method ParseCommand(input: string) returns (result: ParsedCommand)
    ensures result == Command(Tokens(input))
    ensures Tokens(input) == [] ==> result == ParsedCommand("", [])
    ensures Tokens(input) != [] ==> [result.name] + result.args == Tokens(input)
  {
    result := ParsedCommand("", []);
    var ok, token, rest := Extract(input);
    if ok {
      result := result.(name := token);
      ghost var all, unread := Tokens(rest), rest;
      ok, token, rest := Extract(rest);
      ScanOne(all, [], ok, token, unread);
      while ok
        invariant result.name == Word(SkipSpaces(input)) && Scanning(all, result.args, ok, token, rest)
        decreases ok, |rest|
      {
        result := result.(args := result.args + [token]);
        unread := rest;
        ok, token, rest := Extract(rest);
        ScanOne(all, result.args, ok, token, unread);
      }
    }
  }

  // ----- What the tokens are -----

  predicate Blank(s: string) {
    forall i :: 0 <= i < |s| ==> IsSpace(s[i])
  }

  predicate IsToken(t: string) {
    t != "" && forall i :: 0 <= i < |t| ==> !IsSpace(t[i])
  }

  /** One separator behind each token; only the last may be empty. */
  predicate Separates(tokens: seq<string>, seps: seq<string>) {
    && |tokens| == |seps|
    && (forall i :: 0 <= i < |tokens| ==> IsToken(tokens[i]))
    && (forall i :: 0 <= i < |seps| ==> Blank(seps[i]) && (i < |seps| - 1 ==> seps[i] != ""))
  }

  function Join(tokens: seq<string>, seps: seq<string>): string
    requires |tokens| == |seps|
  {
    if tokens == [] then "" else tokens[0] + seps[0] + Join(tokens[1..], seps[1..])
  }

  lemma {:induction false} SkipBlank(lead: string, s: string)
    requires Blank(lead) && (s == "" || !IsSpace(s[0]))
    ensures SkipSpaces(lead + s) == s
  {
    if lead == "" {
      assert lead + s == s;
    } else {
      assert (lead + s)[1..] == lead[1..] + s;
      SkipBlank(lead[1..], s);
    }
  }

  lemma {:induction false} WordOfToken(t: string, s: string)
    requires (forall i :: 0 <= i < |t| ==> !IsSpace(t[i])) && (s == "" || IsSpace(s[0]))
    ensures Word(t + s) == t
  {
    if t == "" {
      assert t + s == s;
    } else {
      assert (t + s)[1..] == t[1..] + s;
      WordOfToken(t[1..], s);
    }
  }

  /** Any tokens behind any white space parse back to themselves. */
  lemma {:induction false} JoinParses(lead: string, tokens: seq<string>, seps: seq<string>)
    requires Blank(lead) && Separates(tokens, seps)
    ensures Tokens(lead + Join(tokens, seps)) == tokens
    decreases |tokens|
  {
    var text := Join(tokens, seps);
    SkipBlank(lead, text);
    if tokens != [] {
      var after := seps[0] + Join(tokens[1..], seps[1..]);
      assert text == tokens[0] + after;
      WordOfToken(tokens[0], after);
      JoinParses(seps[0], tokens[1..], seps[1..]);
      assert text[|tokens[0]|..] == after;
    }
  }

  lemma {:induction false} SplitBlank(s: string) returns (lead: string)
    ensures Blank(lead) && s == lead + SkipSpaces(s)
  {
    if s != "" && IsSpace(s[0]) {
      var rest := SplitBlank(s[1..]);
      lead := [s[0]] + rest;
    } else {
      lead := "";
    }
  }

  lemma JoinCons(t: string, sep: string, tokens: seq<string>, seps: seq<string>)
    requires IsToken(t) && Blank(sep) && Separates(tokens, seps)
    requires tokens != [] ==> sep != ""
    ensures Separates([t] + tokens, [sep] + seps)
    ensures Join([t] + tokens, [sep] + seps) == t + (sep + Join(tokens, seps))
  {
    assert ([t] + tokens)[1..] == tokens && ([sep] + seps)[1..] == seps;
    assert t + sep + Join(tokens, seps) == t + (sep + Join(tokens, seps));
  }

  /** Text that starts with white space and is a join behind `sep` has a real separator in front. */
  lemma SepIsNotEmpty(sep: string, tokens: seq<string>, seps: seq<string>)
    requires Separates(tokens, seps) && tokens != []
    requires var text := sep + Join(tokens, seps); text == "" || IsSpace(text[0])
    ensures sep != ""
  {
    assert (sep + Join(tokens, seps))[|sep|] == tokens[0][0];
  }

  lemma TokensCons(s: string)
    requires SkipSpaces(s) != ""
    ensures var w := Word(SkipSpaces(s)); var rest := SkipSpaces(s)[|w|..];
            && IsToken(w) && Tokens(s) == [w] + Tokens(rest) && SkipSpaces(s) == w + rest
            && |rest| < |s| && (rest == "" || IsSpace(rest[0]))
  {
    var t := SkipSpaces(s);
    assert Word(t)[0] == t[0];
  }

  /** Conversely every input is its tokens, in order, between white space: each token is a maximal run. */
  lemma {:induction false} EveryInputIsAJoin(s: string) returns (lead: string, seps: seq<string>)
    ensures Blank(lead) && Separates(Tokens(s), seps) && s == lead + Join(Tokens(s), seps)
    decreases |s|
  {
    lead := SplitBlank(s);
    if SkipSpaces(s) == "" {
      seps := [];
    } else {
      TokensCons(s);
      var w := Word(SkipSpaces(s));
      var rest := SkipSpaces(s)[|w|..];
      var sep, later := EveryInputIsAJoin(rest);
      if Tokens(rest) != [] {
        SepIsNotEmpty(sep, Tokens(rest), later);
      }
      JoinCons(w, sep, Tokens(rest), later);
      seps := [sep] + later;
    }
  }

  /** So the tokens of an input are characterised completely. */
  lemma TokensIff(s: string, tokens: seq<string>)
    ensures Tokens(s) == tokens <==>
            exists lead, seps :: Blank(lead) && Separates(tokens, seps) && s == lead + Join(tokens, seps)
  {
    if Tokens(s) == tokens {
      var lead, seps := EveryInputIsAJoin(s);
    }
    if exists lead, seps :: Blank(lead) && Separates(tokens, seps) && s == lead + Join(tokens, seps) {
      var lead, seps :| Blank(lead) && Separates(tokens, seps) && s == lead + Join(tokens, seps);
      JoinParses(lead, tokens, seps);
    }
  }

  function Concat(tokens: seq<string>): string {
    if tokens == [] then "" else tokens[0] + Concat(tokens[1..])
  }

  function WithoutSpaces(s: string): string {
    if s == "" then "" else if IsSpace(s[0]) then WithoutSpaces(s[1..]) else [s[0]] + WithoutSpaces(s[1..])
  }

  lemma {:induction false} WithoutSpacesConcat(a: string, b: string)
    ensures WithoutSpaces(a + b) == WithoutSpaces(a) + WithoutSpaces(b)
  {
    if a == "" {
      assert a + b == b;
    } else {
      assert (a + b)[1..] == a[1..] + b;
      WithoutSpacesConcat(a[1..], b);
    }
  }

  lemma {:induction false} WithoutSpacesOf(s: string)
    ensures Blank(s) ==> WithoutSpaces(s) == ""
    ensures (forall i :: 0 <= i < |s| ==> !IsSpace(s[i])) ==> WithoutSpaces(s) == s
  {
    if s != "" {
      WithoutSpacesOf(s[1..]);
      assert s == [s[0]] + s[1..];
    }
  }

  lemma TokenThenBlank(t: string, sep: string, rest: string)
    requires IsToken(t) && Blank(sep)
    ensures WithoutSpaces(t + sep + rest) == t + WithoutSpaces(rest)
  {
    WithoutSpacesConcat(t + sep, rest);
    WithoutSpacesConcat(t, sep);
    WithoutSpacesOf(t);
    WithoutSpacesOf(sep);
    assert t + "" == t;
  }

  lemma {:induction false} JoinWithoutSpaces(tokens: seq<string>, seps: seq<string>)
    requires Separates(tokens, seps)
    ensures WithoutSpaces(Join(tokens, seps)) == Concat(tokens)
    decreases |tokens|
  {
    if tokens != [] {
      JoinWithoutSpaces(tokens[1..], seps[1..]);
      TokenThenBlank(tokens[0], seps[0], Join(tokens[1..], seps[1..]));
    }
  }

  /** No character is lost or reordered. */
  lemma TokensKeepEveryCharacter(s: string)
    ensures Concat(Tokens(s)) == WithoutSpaces(s)
  {
    var lead, seps := EveryInputIsAJoin(s);
    WithoutSpacesConcat(lead, Join(Tokens(s), seps));
    WithoutSpacesOf(lead);
    JoinWithoutSpaces(Tokens(s), seps);
  }

  // ----- Printing -----

  function Spaces(n: nat): seq<string> {
    seq(n, i => " ")
  }

  /** The name and the arguments, each followed by one space. */
  function Print(c: ParsedCommand): string {
    if c.name == "" then "" else Join([c.name] + c.args, Spaces(1 + |c.args|))
  }

  /** A name and arguments, with any white space around and between them, parse to that name and these
      arguments, and nothing else does. */
  lemma CommandIff(s: string, name: string, args: seq<string>)
    ensures Tokens(s) != [] && Command(Tokens(s)) == ParsedCommand(name, args) <==>
            exists lead, seps :: Blank(lead) && Separates([name] + args, seps) && s == lead + Join([name] + args, seps)
  {
    TokensIff(s, [name] + args);
    if Tokens(s) != [] && Command(Tokens(s)) == ParsedCommand(name, args) {
      assert Tokens(s) == [name] + args;
    }
    assert ([name] + args)[1..] == args;
  }

  /** Parsing a printed command gives it back, so parse-print-parse is parse. */
  lemma ParsePrintParse(s: string)
    ensures Command(Tokens(Print(Command(Tokens(s))))) == Command(Tokens(s))
  {
    var tokens := Tokens(s);
    var lead, seps := EveryInputIsAJoin(s);
    if tokens == [] {
      assert Tokens("") == [];
    } else {
      assert [tokens[0]] + tokens[1..] == tokens;
      JoinParses("", tokens, Spaces(|tokens|));
      assert "" + Join(tokens, Spaces(|tokens|)) == Join(tokens, Spaces(|tokens|));
    }
  }
}
