/** The shell-like tokenizer of the build-configuration record
    (crates/spike-release/src/ffmpeg_policy.rs). */
module Tokenizer {
  import opened Prelude

  /** `char::is_whitespace`: the Unicode White_Space property. */
  predicate IsWhitespace(c: char) {
    || '\t' <= c <= '\r'
    || c == ' ' || c == '\U{0085}' || c == '\U{00A0}' || c == '\U{1680}'
    || '\U{2000}' <= c <= '\U{200A}'
    || c == '\U{2028}' || c == '\U{2029}' || c == '\U{202F}' || c == '\U{205F}' || c == '\U{3000}'
  }

  const QUOTE: char := '\''
  const DOUBLE: char := '\"'
  const BACKSLASH: char := '\\'

  /** The four loop variables of `parse_tokens`. */
  datatype Lexer = Lexer(tokens: seq<string>, current: string, quote: Option<char>, escaped: bool) {
    /** Outside quotes and escapes, whatever has been read so far. */
    predicate Neutral() { quote == None && !escaped }
  }

  const START := Lexer([], "", None, false)

  /** One turn of the loop. */
  function Step(s: Lexer, c: char): Lexer {
    if s.escaped then s.(current := s.current + [c], escaped := false)
    else if s.quote == Some(c) then s.(quote := None)
    else if s.quote != Some(QUOTE) && c == BACKSLASH then s.(escaped := true)
    else if s.quote == None && (c == QUOTE || c == DOUBLE) then s.(quote := Some(c))
    else if s.quote == None && IsWhitespace(c) then
      (if s.current == "" then s else Lexer(s.tokens + [s.current], "", None, false))
    else s.(current := s.current + [c])
  }

  function Run(s: Lexer, text: string): Lexer
    decreases |text|
  {
    if text == "" then s else Run(Step(s, text[0]), text[1..])
  }

  /** What the input amounts to at its end; `None` is unbalanced quoting, a trailing
      escape or no token at all. */
  function Finish(s: Lexer): Option<seq<string>> {
    if !s.Neutral() then None
    else
      var tokens := if s.current == "" then s.tokens else s.tokens + [s.current];
      if tokens == [] then None else Some(tokens)
  }

  function Tokens(text: string): Option<seq<string>> { Finish(Run(START, text)) }

  /** `parse_tokens`. */
  method ParseTokens(input: string) returns (r: Option<seq<string>>)
    ensures r == Tokens(input)
  {
    var tokens: seq<string> := [];
    var current := "";
    var quote: Option<char> := None;
    var escaped := false;
    for i := 0 to |input|
      invariant quote == None || quote == Some(QUOTE) || quote == Some(DOUBLE)
      invariant Run(START, input) == Run(Lexer(tokens, current, quote, escaped), input[i..])
    {
      var character := input[i];
      assert input[i..][1..] == input[i + 1..];
      if escaped {
        current := current + [character];
        escaped := false;
      } else if quote == Some(character) {
        quote := None;
      } else if (quote == Some(DOUBLE) || quote == None) && character == BACKSLASH {
        escaped := true;
      } else if quote == None && (character == QUOTE || character == DOUBLE) {
        quote := Some(character);
      } else if quote == None && IsWhitespace(character) {
        if current != "" {
          tokens := tokens + [current];
          current := "";
        }
      } else {
        current := current + [character];
      }
    }
    assert input[|input|..] == "";
    if quote.Some? || escaped {
      return None;
    }
    if current != "" {
      tokens := tokens + [current];
    }
    if tokens == [] {
      return None;
    }
    return Some(tokens);
  }

  // ---- concatenation ---------------------------------------------------------------------

  lemma {:induction false} RunAppend(s: Lexer, a: string, b: string)
    ensures Run(s, a + b) == Run(Run(s, a), b)
    decreases |a|
  {
    hide Step;
    if a == "" {
      assert a + b == b;
    } else {
      assert (a + b)[0] == a[0] && (a + b)[1..] == a[1..] + b;
      RunAppend(Step(s, a[0]), a[1..], b);
    }
  }

  /** Tokens that are already complete are only carried along. */
  lemma {:induction false} RunCarries(done: seq<string>, s: Lexer, text: string)
    ensures Run(s.(tokens := done + s.tokens), text) == Run(s, text).(tokens := done + Run(s, text).tokens)
    decreases |text|
  {
    if text != "" {
      var next := Step(s, text[0]);
      assert Step(s.(tokens := done + s.tokens), text[0]) == next.(tokens := done + next.tokens);
      hide Step;
      RunCarries(done, next, text[1..]);
    }
  }

  /** The tokens of a text whose reading ended outside quotes and escapes. */
  function Complete(s: Lexer): seq<string> { if s.current == "" then s.tokens else s.tokens + [s.current] }

  /** Two texts with a space between them are read one after the other: from a first
      text that lexes back to the neutral state, the tokens are just concatenated. */
  lemma TokensOfJoined(x: string, y: string)
    requires Run(START, x).Neutral()
    ensures Run(START, x + " " + y).tokens == Complete(Run(START, x)) + Run(START, y).tokens
    ensures Run(START, x + " " + y).Neutral() <==> Run(START, y).Neutral()
    ensures Complete(Run(START, x + " " + y)) == Complete(Run(START, x)) + Complete(Run(START, y))
    ensures Tokens(y).Some? ==> Tokens(x + " " + y) == Some(Complete(Run(START, x)) + Tokens(y).value)
  {
    var s := Run(START, x);
    RunAppend(START, x + " ", y);
    RunAppend(START, x, " ");
    SpaceEndsToken(s);
    assert Complete(s) + [] == Complete(s);
    hide Run;
    RunCarries(Complete(s), START, y);
  }

  // ---- round trip ------------------------------------------------------------------------

  predicate Special(c: char) { IsWhitespace(c) || c == QUOTE || c == DOUBLE || c == BACKSLASH }

  /** Which characters of a token get a backslash; the part of the token before a character
      may matter, as it does for `~` and `#` in the shell. */
  type Escaping = (string, char) -> bool

  /** At least the special characters get one. */
  ghost predicate EscapesSpecials(e: Escaping) { forall front, c :: Special(c) ==> e(front, c) }

  function EscapedChar(escaped: bool, c: char): string { (if escaped then [BACKSLASH] else []) + [c] }

  /** A token with a backslash before every character that gets one. */
  function Escape(e: Escaping, token: string): string {
    if token == "" then ""
    else
      var init, last := token[..|token| - 1], token[|token| - 1];
      Escape(e, init) + EscapedChar(e(init, last), last)
  }

  /** `printf '%q '`: every token escaped, with a space behind it. */
  function Print(e: Escaping, tokens: seq<string>): string {
    if tokens == [] then "" else Print(e, tokens[..|tokens| - 1]) + Escape(e, tokens[|tokens| - 1]) + " "
  }

  lemma {:induction false} EscapedIsRead(e: Escaping, s: Lexer, token: string)
    requires EscapesSpecials(e)
    requires s.Neutral()
    ensures Run(s, Escape(e, token)) == s.(current := s.current + token)
    decreases |token|
  {
    if token == "" {
      assert s.current + token == s.current;
    } else {
      var init, c := token[..|token| - 1], token[|token| - 1];
      EscapedIsRead(e, s, init);
      var middle := s.(current := s.current + init);
      var piece := EscapedChar(e(init, c), c);
      assert Escape(e, token) == Escape(e, init) + piece;
      RunAppend(s, Escape(e, init), piece);
      CharIsRead(middle, e(init, c), c);
      assert s.current + token == s.current + init + [c];
    }
  }

  lemma CharIsRead(s: Lexer, escaped: bool, c: char)
    requires s.Neutral() && (Special(c) ==> escaped)
    ensures Run(s, EscapedChar(escaped, c)) == s.(current := s.current + [c])
  {
    if escaped {
      var piece := [BACKSLASH] + [c];
      assert piece[1..] == [c] && [c][1..] == "";
      assert Run(s, piece) == Run(Step(s, BACKSLASH), [c]) == Step(Step(s, BACKSLASH), c);
    } else {
      assert [] + [c] == [c] && [c][1..] == "";
    }
  }

  lemma {:induction false} PrintedIsRead(e: Escaping, tokens: seq<string>)
    requires EscapesSpecials(e)
    requires forall i :: 0 <= i < |tokens| ==> tokens[i] != ""
    ensures Run(START, Print(e, tokens)) == START.(tokens := tokens)
    decreases |tokens|
  {
    if tokens != [] {
      var init, last := tokens[..|tokens| - 1], tokens[|tokens| - 1];
      PrintedIsRead(e, init);
      hide Run, Escape;
      RunAppend(START, Print(e, init), Escape(e, last) + " ");
      assert Print(e, init) + (Escape(e, last) + " ") == Print(e, tokens);
      OneTokenIsRead(e, init, last);
      assert init + [last] == tokens;
    }
  }

  lemma OneTokenIsRead(e: Escaping, done: seq<string>, token: string)
    requires EscapesSpecials(e)
    requires token != ""
    ensures Run(START.(tokens := done), Escape(e, token) + " ") == START.(tokens := done + [token])
  {
    var s := START.(tokens := done);
    RunAppend(s, Escape(e, token), " ");
    EscapedIsRead(e, s, token);
    assert "" + token == token;
    hide Escape;
    SpaceEndsToken(s.(current := token));
  }

  lemma SpaceEndsToken(s: Lexer)
    requires s.Neutral()
    ensures Run(s, " ") == Lexer(Complete(s), "", None, false)
  {
    assert " "[1..] == "";
  }

  // ---- any quoting -----------------------------------------------------------------------

  /** Wherever it stands outside quotes and escapes, `text` adds `token` to what is being read. */
  ghost predicate Spells(text: string, token: string) {
    forall s: Lexer :: s.Neutral() ==> Run(s, text) == s.(current := s.current + token)
  }

  /** Spellings put side by side spell their tokens put together: the parts of a token may
      each be quoted in their own way. */
  lemma SpellingsConcatenate(a: string, x: string, b: string, y: string)
    requires Spells(a, x) && Spells(b, y)
    ensures Spells(a + b, x + y)
  {
    hide Run;
    forall s: Lexer | s.Neutral() ensures Run(s, a + b) == s.(current := s.current + (x + y)) {
      ReadsBoth(s, a, x, b, y);
    }
  }

  lemma ReadsBoth(s: Lexer, a: string, x: string, b: string, y: string)
    requires s.Neutral() && Spells(a, x) && Spells(b, y)
    ensures Run(s, a + b) == s.(current := s.current + (x + y))
  {
    hide Run, Spells;
    RunAppend(s, a, b);
    Reads(s, a, x);
    Reads(s.(current := s.current + x), b, y);
    assert s.current + (x + y) == s.current + x + y;
  }

  lemma Reads(s: Lexer, text: string, token: string)
    requires s.Neutral() && Spells(text, token)
    ensures Run(s, text) == s.(current := s.current + token)
  {
    hide Run;
  }

  lemma EscapeSpells(e: Escaping, token: string)
    requires EscapesSpecials(e)
    ensures Spells(Escape(e, token), token)
  {
    hide Run, Escape;
    forall s: Lexer | s.Neutral() ensures Run(s, Escape(e, token)) == s.(current := s.current + token) {
      EscapedIsRead(e, s, token);
    }
  }

  function SingleQuoted(token: string): string { [QUOTE] + token + [QUOTE] }

  /** Inside double quotes only a double quote and a backslash need a backslash; others may
      have one too. */
  ghost predicate EscapesInDouble(e: Escaping) {
    forall front, c :: c == DOUBLE || c == BACKSLASH ==> e(front, c)
  }

  function DoubleQuoted(e: Escaping, token: string): string { [DOUBLE] + Escape(e, token) + [DOUBLE] }

  lemma {:induction false} InSingleQuotes(s: Lexer, text: string)
    requires s.quote == Some(QUOTE) && !s.escaped && QUOTE !in text
    ensures Run(s, text) == s.(current := s.current + text)
    decreases |text|
  {
    if text == "" {
      assert s.current + text == s.current;
    } else {
      InSingleQuotes(Step(s, text[0]), text[1..]);
      assert s.current + text == s.current + [text[0]] + text[1..];
    }
  }

  lemma {:induction false} InDoubleQuotes(e: Escaping, s: Lexer, token: string)
    requires EscapesInDouble(e) && s.quote == Some(DOUBLE) && !s.escaped
    ensures Run(s, Escape(e, token)) == s.(current := s.current + token)
    decreases |token|
  {
    if token == "" {
      assert s.current + token == s.current;
    } else {
      var init, c := token[..|token| - 1], token[|token| - 1];
      var piece := EscapedChar(e(init, c), c);
      assert Escape(e, token) == Escape(e, init) + piece;
      assert c == DOUBLE || c == BACKSLASH ==> e(init, c);
      hide *;
      InDoubleQuotes(e, s, init);
      RunAppend(s, Escape(e, init), piece);
      QuotedCharIsRead(s.(current := s.current + init), e(init, c), c);
      assert s.current + token == s.current + init + [c];
    }
  }

  lemma QuotedCharIsRead(s: Lexer, escaped: bool, c: char)
    requires s.quote == Some(DOUBLE) && !s.escaped && (c == DOUBLE || c == BACKSLASH ==> escaped)
    ensures Run(s, EscapedChar(escaped, c)) == s.(current := s.current + [c])
  {
    if escaped {
      var piece := [BACKSLASH] + [c];
      assert piece[1..] == [c] && [c][1..] == "";
      assert Run(s, piece) == Run(Step(s, BACKSLASH), [c]) == Step(Step(s, BACKSLASH), c);
    } else {
      assert [] + [c] == [c] && [c][1..] == "";
    }
  }

  /** A delimiter opens or closes its own quotes and leaves everything else alone. */
  lemma DelimiterToggles(s: Lexer, delimiter: char)
    requires delimiter == QUOTE || delimiter == DOUBLE
    ensures s.Neutral() ==> Run(s, [delimiter]) == s.(quote := Some(delimiter))
    ensures s.quote == Some(delimiter) && !s.escaped ==> Run(s, [delimiter]) == s.(quote := None)
  {
    assert [delimiter][1..] == "";
  }

  /** A token may stand in single quotes if it contains none, and in double quotes with at
      least its double quotes and backslashes escaped. */
  lemma QuotesSpell(e: Escaping, token: string)
    ensures QUOTE !in token ==> Spells(SingleQuoted(token), token)
    ensures EscapesInDouble(e) ==> Spells(DoubleQuoted(e, token), token)
  {
    hide Run, Escape, EscapesInDouble;
    forall s: Lexer | s.Neutral()
      ensures QUOTE !in token ==> Run(s, SingleQuoted(token)) == s.(current := s.current + token)
      ensures EscapesInDouble(e) ==> Run(s, DoubleQuoted(e, token)) == s.(current := s.current + token)
    {
      if QUOTE !in token {
        InSingleQuotes(s.(quote := Some(QUOTE)), token);
        Enclosed(s, QUOTE, token, token);
      }
      if EscapesInDouble(e) {
        InDoubleQuotes(e, s.(quote := Some(DOUBLE)), token);
        Enclosed(s, DOUBLE, Escape(e, token), token);
      }
    }
  }

  // ---- what is refused -------------------------------------------------------------------

  /** Text that ends in a backslash, or inside quotes, is refused, whatever was read before. */
  lemma OpenEndIsRefused(e: Escaping, text: string, token: string, tail: string)
    requires Spells(text, token)
    ensures Tokens(text + [BACKSLASH]) == None
    ensures QUOTE !in tail ==> Tokens(text + ([QUOTE] + tail)) == None
    ensures EscapesInDouble(e) ==> Tokens(text + ([DOUBLE] + Escape(e, tail))) == None
  {
    Reads(START, text, token);
    var s := START.(current := token);
    assert "" + token == token && [BACKSLASH][1..] == "";
    assert Run(s, [BACKSLASH]) == Step(s, BACKSLASH);
    hide Run, Escape, EscapesInDouble, Spells;
    RunAppend(START, text, [BACKSLASH]);
    RunAppend(START, text, [QUOTE] + tail);
    RunAppend(s, [QUOTE], tail);
    DelimiterToggles(s, QUOTE);
    if QUOTE !in tail {
      InSingleQuotes(s.(quote := Some(QUOTE)), tail);
    }
    RunAppend(START, text, [DOUBLE] + Escape(e, tail));
    RunAppend(s, [DOUBLE], Escape(e, tail));
    DelimiterToggles(s, DOUBLE);
    if EscapesInDouble(e) {
      InDoubleQuotes(e, s.(quote := Some(DOUBLE)), tail);
    }
  }

  /** So is text of nothing but white space. */
  lemma {:induction false} BlankIsRefused(text: string)
    requires forall c :: c in text ==> IsWhitespace(c)
    ensures Run(START, text) == START && Tokens(text) == None
    decreases |text|
  {
    if text != "" {
      assert text[0] in text && !IsWhitespace(QUOTE) && !IsWhitespace(DOUBLE) && !IsWhitespace(BACKSLASH);
      BlankIsRefused(text[1..]);
    }
  }

  lemma Enclosed(s: Lexer, delimiter: char, text: string, token: string)
    requires delimiter == QUOTE || delimiter == DOUBLE
    requires s.Neutral()
    requires Run(s.(quote := Some(delimiter)), text) == s.(quote := Some(delimiter), current := s.current + token)
    ensures Run(s, [delimiter] + text + [delimiter]) == s.(current := s.current + token)
  {
    hide Run;
    RunAppend(s, [delimiter] + text, [delimiter]);
    RunAppend(s, [delimiter], text);
    DelimiterToggles(s, delimiter);
    DelimiterToggles(s.(quote := Some(delimiter), current := s.current + token), delimiter);
  }

  /** Texts with a space between each and the next. */
  function Join(texts: seq<string>): string {
    if texts == [] then ""
    else if |texts| == 1 then texts[0]
    else Join(texts[..|texts| - 1]) + " " + texts[|texts| - 1]
  }

  ghost predicate AllSpell(texts: seq<string>, tokens: seq<string>) {
    |texts| == |tokens| && forall i :: 0 <= i < |texts| ==> Spells(texts[i], tokens[i])
  }

  function NonEmpty(tokens: seq<string>): seq<string> {
    if tokens == [] then []
    else
      var last := tokens[|tokens| - 1];
      NonEmpty(tokens[..|tokens| - 1]) + if last == "" then [] else [last]
  }

  lemma {:induction false} NonEmptyIsAll(tokens: seq<string>)
    ensures |NonEmpty(tokens)| <= |tokens|
    ensures NonEmpty(tokens) == tokens <==> forall i :: 0 <= i < |tokens| ==> tokens[i] != ""
    decreases |tokens|
  {
    if tokens != [] {
      var init := tokens[..|tokens| - 1];
      NonEmptyIsAll(init);
      assert tokens == init + [tokens[|tokens| - 1]];
      if NonEmpty(tokens) == tokens {
        assert |NonEmpty(tokens)| == |tokens| && tokens[|tokens| - 1] != "";
        assert NonEmpty(tokens)[..|init|] == NonEmpty(init);
      }
    }
  }

  lemma {:induction false} SpelledListIsRead(texts: seq<string>, tokens: seq<string>)
    requires texts != [] && AllSpell(texts, tokens)
    ensures Run(START, Join(texts)).Neutral()
    ensures Complete(Run(START, Join(texts))) == NonEmpty(tokens)
    decreases |texts|
  {
    hide Run, Spells;
    var init, last := tokens[..|tokens| - 1], tokens[|tokens| - 1];
    var text := texts[|texts| - 1];
    OneSpelling(text, last);
    if |texts| == 1 {
      assert init == [] && NonEmpty(init) == [];
    } else {
      SpelledListIsRead(texts[..|texts| - 1], init);
      TokensOfJoined(Join(texts[..|texts| - 1]), text);
    }
  }

  lemma OneSpelling(text: string, token: string)
    requires Spells(text, token)
    ensures Run(START, text).Neutral()
    ensures Complete(Run(START, text)) == if token == "" then [] else [token]
  {
    hide Run, Spells;
    Reads(START, text, token);
    assert "" + token == token;
  }

  /** However the tokens are spelled, a line of spellings lexes to the non-empty tokens among
      them: to all of them exactly when none is empty. */
  lemma AnySpellingIsRead(texts: seq<string>, tokens: seq<string>)
    requires texts != [] && AllSpell(texts, tokens)
    ensures Tokens(Join(texts)) == if NonEmpty(tokens) == [] then None else Some(NonEmpty(tokens))
    ensures Tokens(Join(texts)) == Some(tokens) <==> forall i :: 0 <= i < |tokens| ==> tokens[i] != ""
  {
    hide Run, Join, Spells, NonEmpty;
    SpelledListIsRead(texts, tokens);
    NonEmptyIsAll(tokens);
  }

  /** An empty token in quotes leaves no trace. */
  lemma EmptyTokenIsLost()
    ensures Tokens("a" + " " + "\'\'") == Some(["a"])
  {
    LetterIsRead();
    EmptyQuotesAreRead();
    hide Run, IsWhitespace;
    TokensOfJoined("a", "\'\'");
    assert Complete(START.(current := "a")) == ["a"] && Complete(START) == [];
    assert ["a"] + [] == ["a"];
  }

  lemma LetterIsRead()
    ensures Run(START, "a") == START.(current := "a")
  {
    assert "a"[1..] == "";
    assert Run(START, "a") == Run(Step(START, 'a'), "");
  }

  lemma EmptyQuotesAreRead()
    ensures Run(START, "\'\'") == START
  {
    assert "\'\'"[1..] == "\'" && "\'"[1..] == "";
    assert Run(START, "\'\'") == Run(Step(START, QUOTE), "\'") == Run(Step(Step(START, QUOTE), QUOTE), "");
  }

  /** Printing every token with a space behind it, or joining the escaped tokens with spaces,
      is undone by the tokenizer, for any non-empty list of non-empty tokens. */
  lemma RoundTrip(e: Escaping, tokens: seq<string>)
    requires EscapesSpecials(e)
    requires tokens != [] && forall i :: 0 <= i < |tokens| ==> tokens[i] != ""
    ensures Tokens(Print(e, tokens)) == Some(tokens)
    ensures Tokens(Join(Escapes(e, tokens))) == Some(tokens)
  {
    hide Run, Print, Join, Escape, Spells;
    PrintedIsRead(e, tokens);
    forall i | 0 <= i < |tokens| ensures Spells(Escapes(e, tokens)[i], tokens[i]) {
      EscapeSpells(e, tokens[i]);
    }
    AnySpellingIsRead(Escapes(e, tokens), tokens);
  }

  function Escapes(e: Escaping, tokens: seq<string>): seq<string> {
    seq(|tokens|, i requires 0 <= i < |tokens| => Escape(e, tokens[i]))
  }
}
