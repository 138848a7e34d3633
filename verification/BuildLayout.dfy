/** The two layouts a build configuration is read in: the one line the build scripts print
    (scripts/build-ffmpeg-linux.sh) and the indented list FFmpeg itself prints. */
module BuildLayout {
  import opened Prelude
  import opened Strings
  import opened Tokenizer
  import opened BuildPolicy

  // ---- lines -----------------------------------------------------------------------------

  /** Lines as a file holds them, each with its line feed. */
  function Unlines(lines: seq<string>): string {
    if lines == [] then "" else lines[0] + "\n" + Unlines(lines[1..])
  }

  /** A line that survives being written and read: no line feed in it, no carriage return at its end. */
  predicate PlainLine(line: string) {
    '\n' !in line && (line != "" ==> line[|line| - 1] != '\r')
  }

  lemma {:induction false} LinesOfUnlines(lines: seq<string>)
    requires forall i :: 0 <= i < |lines| ==> PlainLine(lines[i])
    ensures Lines(Unlines(lines)) == lines
    decreases |lines|
  {
    if lines != [] {
      LinesOfUnlines(lines[1..]);
      hide Lines, PlainLine;
      TerminatedLine(lines[0], Unlines(lines[1..]));
      assert lines == [lines[0]] + lines[1..];
    }
  }

  lemma TerminatedLine(line: string, rest: string)
    requires PlainLine(line)
    ensures Lines(line + "\n" + rest) == [line] + Lines(rest)
  {
    var text := line + "\n" + rest;
    FirstLineFeed(line, rest);
    assert text[..|line|] == line && text[|line| + 1..] == rest;
    hide Find;
  }

  lemma FirstLineFeed(line: string, rest: string)
    requires '\n' !in line
    ensures Find("\n", line + "\n" + rest, 0) == Some(|line|)
  {
    var text := line + "\n" + rest;
    assert text[|line|] == '\n';
    assert OccursAt("\n", text, |line|);
    forall i: nat | i < |line| ensures !OccursAt("\n", text, i) {
      assert text[i..i + 1][0] == line[i];
    }
    hide Find;
  }

  // ---- trimming --------------------------------------------------------------------------

  /** White space around a text that has none at its own ends is all that trimming removes. */
  lemma {:induction false} TrimPadded(left: string, text: string, right: string)
    requires forall c :: c in left || c in right ==> IsWhitespace(c)
    requires text != "" && !IsWhitespace(text[0]) && !IsWhitespace(text[|text| - 1])
    ensures Trim(left + text + right) == text
  {
    TrimStartPadded(left, text + right);
    assert left + text + right == left + (text + right);
    TrimEndPadded(text, right);
  }

  lemma {:induction false} TrimStartPadded(left: string, text: string)
    requires forall c :: c in left ==> IsWhitespace(c)
    requires text != "" && !IsWhitespace(text[0])
    ensures TrimStart(left + text) == text
    decreases |left|
  {
    if left == "" {
      assert left + text == text;
    } else {
      assert (left + text)[1..] == left[1..] + text;
      assert left[0] in left;
      TrimStartPadded(left[1..], text);
    }
  }

  lemma {:induction false} TrimEndPadded(text: string, right: string)
    requires forall c :: c in right ==> IsWhitespace(c)
    requires text != "" && !IsWhitespace(text[|text| - 1])
    ensures TrimEnd(text + right) == text
    decreases |right|
  {
    if right == "" {
      assert text + right == text;
    } else {
      var all := text + right;
      assert all[..|all| - 1] == text + right[..|right| - 1];
      assert right[|right| - 1] in right;
      TrimEndPadded(text, right[..|right| - 1]);
    }
  }

  // ---- escaped tokens --------------------------------------------------------------------

  /** Escaping keeps the last character and starts no text with white space. */
  lemma {:induction false} EscapeEnds(e: Escaping, token: string)
    requires EscapesSpecials(e)
    requires token != ""
    ensures Escape(e, token) != "" && !IsWhitespace(Escape(e, token)[0])
    ensures Escape(e, token)[|Escape(e, token)| - 1] == token[|token| - 1]
    ensures IsWhitespace(token[|token| - 1]) ==>
              |Escape(e, token)| >= 2 && Escape(e, token)[|Escape(e, token)| - 2] == BACKSLASH
    decreases |token|
  {
    var init := token[..|token| - 1];
    if init == "" {
      assert Escape(e, init) == "";
    } else {
      EscapeEnds(e, init);
    }
  }

  lemma {:induction false} EscapeAddsNoLineFeed(e: Escaping, token: string)
    requires '\n' !in token
    ensures '\n' !in Escape(e, token)
    decreases |token|
  {
    if token != "" {
      EscapeAddsNoLineFeed(e, token[..|token| - 1]);
    }
  }

  lemma {:induction false} PrintAddsNoLineFeed(e: Escaping, tokens: seq<string>)
    requires forall i :: 0 <= i < |tokens| ==> '\n' !in tokens[i]
    ensures '\n' !in Print(e, tokens)
    decreases |tokens|
  {
    if tokens != [] {
      PrintAddsNoLineFeed(e, tokens[..|tokens| - 1]);
      EscapeAddsNoLineFeed(e, tokens[|tokens| - 1]);
    }
  }

  lemma {:induction false} PrintStart(e: Escaping, tokens: seq<string>)
    requires EscapesSpecials(e)
    requires tokens != [] && forall i :: 0 <= i < |tokens| ==> tokens[i] != ""
    ensures Print(e, tokens) != "" && !IsWhitespace(Print(e, tokens)[0])
    decreases |tokens|
  {
    var init := tokens[..|tokens| - 1];
    EscapeEnds(e, tokens[|tokens| - 1]);
    hide Escape, IsWhitespace;
    if init == [] {
      assert Print(e, init) == "";
    } else {
      PrintStart(e, init);
    }
  }

  // ---- the line of the build scripts -----------------------------------------------------

  /** The printed line without the space behind it. */
  function Printed(e: Escaping, tokens: seq<string>): string
    requires tokens != []
  {
    Print(e, tokens[..|tokens| - 1]) + Escape(e, tokens[|tokens| - 1])
  }

  lemma PrintedEnds(e: Escaping, tokens: seq<string>)
    requires EscapesSpecials(e)
    requires tokens != [] && forall i :: 0 <= i < |tokens| ==> tokens[i] != ""
    ensures Printed(e, tokens) != "" && Printed(e, tokens) + " " == Print(e, tokens)
    ensures !IsWhitespace(Printed(e, tokens)[0])
    ensures Printed(e, tokens)[|Printed(e, tokens)| - 1] == LastChar(tokens)
    ensures IsWhitespace(LastChar(tokens)) ==>
              |Printed(e, tokens)| >= 2 && Printed(e, tokens)[|Printed(e, tokens)| - 2] == BACKSLASH
  {
    EscapeEnds(e, tokens[|tokens| - 1]);
    PrintStart(e, tokens);
    hide Escape, IsWhitespace;
    assert Print(e, tokens)[0] == Printed(e, tokens)[0];
  }

  /** The last character of the last token. */
  function LastChar(tokens: seq<string>): char
    requires tokens != [] && forall i :: 0 <= i < |tokens| ==> tokens[i] != ""
  {
    tokens[|tokens| - 1][|tokens[|tokens| - 1]| - 1]
  }

  /** A printed line that lost the white space its last token ends in ends in a bare escape. */
  lemma ClippedIsMalformed(e: Escaping, tokens: seq<string>)
    requires EscapesSpecials(e)
    requires tokens != [] && forall i :: 0 <= i < |tokens| ==> tokens[i] != ""
    requires IsWhitespace(LastChar(tokens)) && Printed(e, tokens) != ""
    ensures Tokens(Printed(e, tokens)[..|Printed(e, tokens)| - 1]) == None
  {
    var init, last := tokens[..|tokens| - 1], tokens[|tokens| - 1];
    var stem := last[..|last| - 1];
    var clipped := Print(e, init) + (Escape(e, stem) + [BACKSLASH]);
    assert Escape(e, last) == Escape(e, stem) + EscapedChar(true, last[|last| - 1]);
    assert EscapedChar(true, last[|last| - 1]) == [BACKSLASH] + [last[|last| - 1]];
    assert Printed(e, tokens)[..|Printed(e, tokens)| - 1] == clipped;
    PrintedIsRead(e, init);
    RunAppend(START, Print(e, init), Escape(e, stem) + [BACKSLASH]);
    RunAppend(START.(tokens := init), Escape(e, stem), [BACKSLASH]);
    hide Print, Escape;
    EscapedIsRead(e, START.(tokens := init), stem);
    assert [BACKSLASH][1..] == "";
  }

  /** Whatever else the shell escapes, the verdict on the one line the build scripts write is
      the verdict on the tokens they printed, except when the last token ends in white space:
      then trimming the record takes its last character away from behind its escape, and the
      record is malformed. */
  lemma PrintedLineVerdict(e: Escaping, tokens: seq<string>)
    requires EscapesSpecials(e)
    requires tokens != [] && forall i :: 0 <= i < |tokens| ==> tokens[i] != "" && '\n' !in tokens[i]
    ensures Verdict(HEADER + " " + Print(e, tokens) + "\n")
         == if IsWhitespace(LastChar(tokens)) then Err(Malformed) else TokenVerdict(tokens)
  {
    hide Print, Printed, Tokens, TokenVerdict, Lines, Record, Trim, HEADER, IsWhitespace, LastChar;
    PrintedRecord(e, tokens);
    PrintedEnds(e, tokens);
    PrintedTokens(e, tokens);
    if IsWhitespace(LastChar(tokens)) {
      ClippedIsMalformed(e, tokens);
    }
    TrimPrinted(e, tokens);
  }

  lemma PrintedRecord(e: Escaping, tokens: seq<string>)
    requires EscapesSpecials(e)
    requires tokens != [] && forall i :: 0 <= i < |tokens| ==> tokens[i] != "" && '\n' !in tokens[i]
    ensures Record(Lines(HEADER + " " + Print(e, tokens) + "\n")) == Some(Trim(" " + Print(e, tokens)))
  {
    PrintAddsNoLineFeed(e, tokens);
    PrintedEnds(e, tokens);
    hide *;
    SpacedIsPlain(Printed(e, tokens), Print(e, tokens));
    RecordOfLine(" " + Print(e, tokens));
    LineText(HEADER, Print(e, tokens));
  }

  lemma LineText(header: string, text: string)
    ensures header + (" " + text) + "\n" == header + " " + text + "\n"
    ensures " " + text != ""
  {
    assert header + (" " + text) == header + " " + text;
  }

  lemma SpacedIsPlain(text: string, spaced: string)
    requires spaced == text + " " && '\n' !in spaced
    ensures PlainLine(" " + spaced) && " " + spaced != ""
  {
    var line := " " + spaced;
    assert line[|line| - 1] == spaced[|spaced| - 1] == ' ';
  }

  /** A file of one header line. */
  lemma RecordOfLine(inline: string)
    requires PlainLine(inline) && inline != ""
    ensures Record(Lines(HEADER + inline + "\n")) == Some(Trim(inline))
  {
    var line := HEADER + inline;
    assert '\n' !in HEADER;
    assert line[|line| - 1] == inline[|inline| - 1];
    assert [line][1..] == [];
    assert Unlines([]) == "";
    assert Unlines([line]) == line + "\n" + "" == line + "\n";
    LinesOfUnlines([line]);
    HeaderLine("", inline);
    assert "" + HEADER + inline == line;
    hide Inline, Trim, Lines, HEADER, Unlines;
    assert Continued(Trim(inline), []) == Trim(inline);
  }

  lemma PrintedTokens(e: Escaping, tokens: seq<string>)
    requires EscapesSpecials(e)
    requires tokens != [] && forall i :: 0 <= i < |tokens| ==> tokens[i] != ""
    ensures Tokens(Printed(e, tokens)) == Some(tokens)
  {
    var init, last := tokens[..|tokens| - 1], tokens[|tokens| - 1];
    PrintedIsRead(e, init);
    RunAppend(START, Print(e, init), Escape(e, last));
    hide Run, Print, Escape;
    EscapedIsRead(e, START.(tokens := init), last);
    assert "" + last == last && init + [last] == tokens;
  }

  lemma TrimPrinted(e: Escaping, tokens: seq<string>)
    requires EscapesSpecials(e)
    requires tokens != [] && forall i :: 0 <= i < |tokens| ==> tokens[i] != ""
    ensures Printed(e, tokens) != ""
    ensures Trim(" " + Print(e, tokens))
         == if IsWhitespace(LastChar(tokens)) then Printed(e, tokens)[..|Printed(e, tokens)| - 1]
            else Printed(e, tokens)
  {
    PrintedEnds(e, tokens);
    var text := Printed(e, tokens);
    hide Print, Printed, Trim, IsWhitespace, LastChar;
    if IsWhitespace(LastChar(tokens)) {
      TrimClips(text);
    } else {
      TrimKeeps(text);
    }
  }

  lemma TrimClips(text: string)
    requires |text| >= 2 && !IsWhitespace(text[0]) && IsWhitespace(text[|text| - 1]) && text[|text| - 2] == BACKSLASH
    ensures Trim(" " + (text + " ")) == text[..|text| - 1]
  {
    assert !IsWhitespace(BACKSLASH) && IsWhitespace(' ');
    hide Trim, IsWhitespace;
    var clipped := text[..|text| - 1];
    var right := [text[|text| - 1]] + " ";
    assert " " + (text + " ") == " " + clipped + right;
    assert clipped[|clipped| - 1] == BACKSLASH && clipped[0] == text[0];
    TrimPadded(" ", clipped, right);
  }

  lemma TrimKeeps(text: string)
    requires text != "" && !IsWhitespace(text[0]) && !IsWhitespace(text[|text| - 1])
    ensures Trim(" " + (text + " ")) == text
  {
    assert IsWhitespace(' ');
    hide Trim, IsWhitespace;
    assert " " + (text + " ") == " " + text + " ";
    TrimPadded(" ", text, " ");
  }

  lemma HeaderLine(indent: string, inline: string)
    requires forall c :: c in indent ==> IsWhitespace(c)
    ensures Inline(indent + HEADER + inline) == Some(inline)
  {
    var text := HEADER + inline;
    assert indent + HEADER + inline == indent + text;
    assert text[0] == HEADER[0] == 'c';
    TrimStartPadded(indent, text);
    assert text[0..0 + |HEADER|] == HEADER && text[|HEADER|..] == inline;
  }

  // ---- any quoting, on one line or as the list FFmpeg prints ------------------------------

  /** A text that can stand on a line: it spells its token and has no white space at its ends. */
  ghost predicate Spelling(text: string, token: string) {
    && Spells(text, token) && token != "" && text != "" && '\n' !in text
    && !IsWhitespace(text[0]) && !IsWhitespace(text[|text| - 1])
  }

  ghost predicate Spellings(texts: seq<string>, tokens: seq<string>) {
    |texts| == |tokens| && forall i :: 0 <= i < |texts| ==> Spelling(texts[i], tokens[i])
  }

  /** A token without a line feed and without white space at its end can be written with
      backslashes ... */
  lemma EscapedIsSpelling(e: Escaping, token: string)
    requires EscapesSpecials(e)
    requires token != "" && '\n' !in token && !IsWhitespace(token[|token| - 1])
    ensures Spelling(Escape(e, token), token)
  {
    EscapeSpells(e, token);
    EscapeEnds(e, token);
    EscapeAddsNoLineFeed(e, token);
    hide Spells, Escape, IsWhitespace;
  }

  /** ... any without a line feed in single quotes, if it contains none, and any at all
      without a line feed in double quotes. */
  lemma QuotedIsSpelling(e: Escaping, token: string)
    requires token != "" && '\n' !in token
    ensures QUOTE !in token ==> Spelling(SingleQuoted(token), token)
    ensures EscapesInDouble(e) ==> Spelling(DoubleQuoted(e, token), token)
  {
    QuotesSpell(e, token);
    hide Spells;
    EnclosedEnds(QUOTE, token);
    EscapeAddsNoLineFeed(e, token);
    hide Escape, EscapesInDouble;
    EnclosedEnds(DOUBLE, Escape(e, token));
  }

  lemma EnclosedEnds(delimiter: char, token: string)
    requires delimiter == QUOTE || delimiter == DOUBLE
    requires '\n' !in token
    ensures var text := [delimiter] + token + [delimiter];
            text != "" && '\n' !in text && !IsWhitespace(text[0]) && !IsWhitespace(text[|text| - 1])
  {
  }

  lemma SpellingsAreRead(texts: seq<string>, tokens: seq<string>)
    requires texts != [] && Spellings(texts, tokens)
    ensures Tokens(Join(texts)) == Some(tokens)
    ensures forall i :: 0 <= i < |texts| ==> texts[i] != ""
  {
    hide Spells, IsWhitespace, Tokens, Join, NonEmpty;
    AnySpellingIsRead(texts, tokens);
  }

  lemma {:induction false} JoinEnds(texts: seq<string>, tokens: seq<string>)
    requires texts != [] && Spellings(texts, tokens)
    ensures Join(texts) != "" && '\n' !in Join(texts)
    ensures !IsWhitespace(Join(texts)[0]) && !IsWhitespace(Join(texts)[|Join(texts)| - 1])
    decreases |texts|
  {
    hide Spells, IsWhitespace;
    var front := texts[..|texts| - 1];
    if |texts| > 1 {
      JoinEnds(front, tokens[..|tokens| - 1]);
    }
  }

  /** A configuration on one line is judged by its tokens, however each of them is quoted. */
  lemma QuotedLineVerdict(texts: seq<string>, tokens: seq<string>)
    requires texts != [] && Spellings(texts, tokens)
    ensures Verdict(HEADER + " " + Join(texts) + "\n") == TokenVerdict(tokens)
  {
    hide *;
    JoinEnds(texts, tokens);
    SpellingsAreRead(texts, tokens);
    LineVerdict(Join(texts));
  }

  /** A backslash before the special characters alone. */
  const SPECIALS: Escaping := (front, c) => Special(c)

  /** The ways a token can be written down. */
  datatype Form = Escaped(e: Escaping) | InSingleQuotes | InDoubleQuotes(e: Escaping)

  function Written(token: string, form: Form): string {
    match form
    case Escaped(e) => Escape(e, token)
    case InSingleQuotes => SingleQuoted(token)
    case InDoubleQuotes(e) => DoubleQuoted(e, token)
  }

  /** What a form asks; double quotes ask nothing of the token. */
  ghost predicate Fits(token: string, form: Form) {
    match form
    case Escaped(e) => EscapesSpecials(e) && (token == "" || !IsWhitespace(token[|token| - 1]))
    case InSingleQuotes => QUOTE !in token
    case InDoubleQuotes(e) => EscapesInDouble(e)
  }

  lemma WrittenIsSpelling(token: string, form: Form)
    requires token != "" && '\n' !in token && Fits(token, form)
    ensures Spelling(Written(token, form), token)
  {
    hide Spelling, Escape, SingleQuoted, DoubleQuoted;
    match form
    case Escaped(e) => EscapedIsSpelling(e, token);
    case InSingleQuotes => QuotedIsSpelling(SPECIALS, token);
    case InDoubleQuotes(e) => QuotedIsSpelling(e, token);
  }

  /** Every list of tokens can be written on one line so that it is judged by its tokens,
      also where its printed form is refused: each token in any form that fits it, and
      double quotes fit every token. */
  lemma WrittenLineVerdict(tokens: seq<string>, forms: seq<Form>)
    requires |forms| == |tokens| > 0
    requires forall i :: 0 <= i < |tokens| ==> tokens[i] != "" && '\n' !in tokens[i] && Fits(tokens[i], forms[i])
    ensures var texts := seq(|tokens|, i requires 0 <= i < |tokens| => Written(tokens[i], forms[i]));
            Verdict(HEADER + " " + Join(texts) + "\n") == TokenVerdict(tokens)
  {
    hide Verdict, Join, TokenVerdict, Spelling, Written, Fits;
    var texts := seq(|tokens|, i requires 0 <= i < |tokens| => Written(tokens[i], forms[i]));
    forall i | 0 <= i < |tokens| ensures Spelling(texts[i], tokens[i]) {
      WrittenIsSpelling(tokens[i], forms[i]);
    }
    QuotedLineVerdict(texts, tokens);
  }

  lemma LineVerdict(text: string)
    requires text != "" && '\n' !in text && !IsWhitespace(text[0]) && !IsWhitespace(text[|text| - 1])
    requires Tokens(text).Some?
    ensures Verdict(HEADER + " " + text + "\n") == TokenVerdict(Tokens(text).value)
  {
    LineTrims(text);
    hide *;
    RecordOfLine(" " + text);
    LineText(HEADER, text);
    RecordDecides(HEADER + " " + text + "\n", text);
  }

  lemma LineTrims(text: string)
    requires text != "" && '\n' !in text && !IsWhitespace(text[0]) && !IsWhitespace(text[|text| - 1])
    ensures Trim(" " + text) == text && PlainLine(" " + text)
  {
    assert " " + text + "" == " " + text;
    TrimPadded(" ", text, "");
    assert (" " + text)[|text|] == text[|text| - 1];
  }

  const INDENT: string := "    "

  function Listing(texts: seq<string>): seq<string> {
    if texts == [] then [] else [INDENT + texts[0]] + Listing(texts[1..])
  }

  /** The texts look like flags, as FFmpeg lists them. */
  ghost predicate Flags(texts: seq<string>, tokens: seq<string>) {
    Spellings(texts, tokens) && forall i :: 0 <= i < |texts| ==> StartsWith(texts[i], "--")
  }

  /** The lines behind the list do not look like a further flag. */
  predicate EndsList(trailer: seq<string>) {
    trailer == [] || !StartsWith(Trim(trailer[0]), "--")
  }

  lemma FlagLine(text: string, token: string)
    requires Spelling(text, token)
    ensures Trim(INDENT + text) == text && text != "" && PlainLine(INDENT + text)
  {
    hide Spells;
    assert INDENT + text + "" == INDENT + text;
    TrimPadded(INDENT, text, "");
    assert (INDENT + text)[|INDENT + text| - 1] == text[|text| - 1];
  }

  lemma {:induction false} ListingIsPlain(texts: seq<string>, tokens: seq<string>)
    requires Flags(texts, tokens)
    ensures forall i :: 0 <= i < |Listing(texts)| ==> PlainLine(Listing(texts)[i])
    decreases |texts|
  {
    hide Spelling, PlainLine, INDENT;
    if texts != [] {
      FlagLine(texts[0], tokens[0]);
      ListingIsPlain(texts[1..], tokens[1..]);
    }
  }

  lemma JoinSnoc(texts: seq<string>, text: string)
    requires forall i :: 0 <= i < |texts| ==> texts[i] != ""
    requires text != ""
    ensures Join(texts + [text]) == Appended(Join(texts), text) && Join(texts + [text]) != ""
  {
    assert (texts + [text])[..|texts|] == texts;
    if texts != [] {
      assert Join(texts) != "";
    }
  }

  lemma {:induction false} ContinuedListing(done: seq<string>, texts: seq<string>, tokens: seq<string>,
                                            trailer: seq<string>)
    requires done + texts != [] && EndsList(trailer)
    requires forall i :: 0 <= i < |done| ==> done[i] != ""
    requires Flags(texts, tokens)
    ensures Continued(Join(done), Listing(texts) + trailer) == Join(done + texts)
    decreases |texts|
  {
    if texts == [] {
      hide *;
      Regroup(done, [], [], []);
      ListEnds(done, trailer);
    } else {
      FlagsTail(texts, tokens);
      hide *;
      FlagLine(texts[0], tokens[0]);
      JoinSnoc(done, texts[0]);
      ListingHead(texts, trailer);
      TakeLine(Join(done), INDENT + texts[0], Listing(texts[1..]) + trailer);
      ContinuedListing(done + [texts[0]], texts[1..], tokens[1..], trailer);
      MoveOne(done, texts);
    }
  }

  lemma MoveOne(done: seq<string>, texts: seq<string>)
    requires texts != []
    ensures done + [texts[0]] + texts[1..] == done + texts && done + texts != []
    ensures forall i :: 0 <= i < |done + [texts[0]]| ==>
            (done + [texts[0]])[i] == if i < |done| then done[i] else texts[0]
  {
  }

  lemma FlagsTail(texts: seq<string>, tokens: seq<string>)
    requires Flags(texts, tokens) && texts != []
    ensures tokens != [] && Spelling(texts[0], tokens[0]) && StartsWith(texts[0], "--")
    ensures Flags(texts[1..], tokens[1..])
  {
    hide Spelling, StartsWith;
  }

  lemma ListEnds(done: seq<string>, trailer: seq<string>)
    requires done != [] && EndsList(trailer)
    requires forall i :: 0 <= i < |done| ==> done[i] != ""
    ensures Continued(Join(done), Listing([]) + trailer) == Join(done)
  {
    Regroup(trailer, [], [], []);
    assert done == done[..|done| - 1] + [done[|done| - 1]];
    hide Join, Trim, StartsWith;
    JoinSnoc(done[..|done| - 1], done[|done| - 1]);
  }

  lemma ListingHead(texts: seq<string>, trailer: seq<string>)
    requires texts != []
    ensures Listing(texts) + trailer == [INDENT + texts[0]] + (Listing(texts[1..]) + trailer)
  {
    hide INDENT;
  }

  lemma TakeLine(record: string, line: string, rest: seq<string>)
    requires StartsWith(Trim(line), "--")
    ensures Continued(record, [line] + rest) == Continued(Appended(record, Trim(line)), rest)
  {
    hide StartsWith, Trim, Appended;
    assert ([line] + rest)[1..] == rest;
  }

  lemma {:induction false} RecordSkips(banner: seq<string>, rest: seq<string>)
    requires forall i :: 0 <= i < |banner| ==> Inline(banner[i]) == None
    ensures Record(banner + rest) == Record(rest)
    decreases |banner|
  {
    hide Inline;
    if banner == [] {
      assert banner + rest == rest;
    } else {
      assert (banner + rest)[0] == banner[0] && (banner + rest)[1..] == banner[1..] + rest;
      RecordSkips(banner[1..], rest);
    }
  }

  /** FFmpeg's own layout, between any banner and any trailer, is judged by its tokens
      alone, however each of them is quoted. */
  lemma ListedVerdict(banner: seq<string>, texts: seq<string>, tokens: seq<string>, trailer: seq<string>)
    requires forall i :: 0 <= i < |banner| ==> PlainLine(banner[i]) && Inline(banner[i]) == None
    requires forall i :: 0 <= i < |trailer| ==> PlainLine(trailer[i])
    requires EndsList(trailer)
    requires texts != [] && Flags(texts, tokens)
    ensures Verdict(Unlines(banner + ["  " + HEADER] + Listing(texts) + trailer)) == TokenVerdict(tokens)
  {
    HeaderIsPlain();
    ListingIsPlain(texts, tokens);
    SpellingsAreRead(texts, tokens);
    hide *;
    var header := "  " + HEADER;
    AllPlain(banner, header, Listing(texts), trailer);
    ListedRecord(banner, header, texts, tokens, trailer);
    LinesDecide(banner + [header] + Listing(texts) + trailer, Join(texts));
  }

  /** Lines of white space do not begin the list; they end it once it has begun. */
  ghost predicate Blank(line: string) { PlainLine(line) && Trim(line) == "" }

  lemma {:induction false} BlanksAreSkipped(blanks: seq<string>, rest: seq<string>)
    requires forall i :: 0 <= i < |blanks| ==> Trim(blanks[i]) == ""
    ensures Continued("", blanks + rest) == Continued("", rest)
    decreases |blanks|
  {
    hide Trim;
    if blanks == [] {
      assert blanks + rest == rest;
    } else {
      assert (blanks + rest)[0] == blanks[0] && (blanks + rest)[1..] == blanks[1..] + rest;
      assert !StartsWith("", "--");
      hide StartsWith;
      BlanksAreSkipped(blanks[1..], rest);
    }
  }

  /** A configuration may begin on the line of the header and go on in the list, or begin in the
      list after any blank lines: it is judged by all its tokens. */
  lemma MixedVerdict(banner: seq<string>, first: seq<string>, firstTokens: seq<string>, blanks: seq<string>,
                     texts: seq<string>, tokens: seq<string>, trailer: seq<string>)
    requires forall i :: 0 <= i < |banner| ==> PlainLine(banner[i]) && Inline(banner[i]) == None
    requires forall i :: 0 <= i < |trailer| ==> PlainLine(trailer[i])
    requires forall i :: 0 <= i < |blanks| ==> Blank(blanks[i])
    requires EndsList(trailer) && Spellings(first, firstTokens) && Flags(texts, tokens)
    requires first + texts != [] && (first == [] || blanks == [])
    ensures var header := HEADER + if first == [] then "" else " " + Join(first);
            Verdict(Unlines(banner + [header] + (blanks + Listing(texts)) + trailer))
            == TokenVerdict(firstTokens + tokens)
  {
    var header := HEADER + if first == [] then "" else " " + Join(first);
    MixedHeader(first, firstTokens);
    ListingIsPlain(texts, tokens);
    BothSpell(first, firstTokens, texts, tokens);
    SpellingsAreRead(first + texts, firstTokens + tokens);
    assert forall i :: 0 <= i < |blanks| ==> PlainLine(blanks[i]) && Trim(blanks[i]) == "";
    assert forall i :: 0 <= i < |first| ==> first[i] != "";
    hide *;
    PlainBoth(blanks, Listing(texts));
    AllPlain(banner, header, blanks + Listing(texts), trailer);
    MixedRecord(banner, header, first, blanks, texts, tokens, trailer);
    LinesDecide(banner + [header] + (blanks + Listing(texts)) + trailer, Join(first + texts));
  }

  lemma PlainBoth(a: seq<string>, b: seq<string>)
    requires forall i :: 0 <= i < |a| ==> PlainLine(a[i])
    requires forall i :: 0 <= i < |b| ==> PlainLine(b[i])
    ensures forall i :: 0 <= i < |a + b| ==> PlainLine((a + b)[i])
  {
    hide PlainLine;
  }

  lemma BothSpell(first: seq<string>, firstTokens: seq<string>, texts: seq<string>, tokens: seq<string>)
    requires Spellings(first, firstTokens) && Flags(texts, tokens)
    ensures Spellings(first + texts, firstTokens + tokens)
  {
    hide Spelling, StartsWith;
  }

  lemma MixedHeader(first: seq<string>, firstTokens: seq<string>)
    requires Spellings(first, firstTokens)
    ensures var inline := if first == [] then "" else " " + Join(first);
            Inline(HEADER + inline) == Some(inline) && Trim(inline) == Join(first) && PlainLine(HEADER + inline)
  {
    var inline := if first == [] then "" else " " + Join(first);
    assert Join([]) == "" && Trim("") == "";
    hide Join, Trim, Inline, Spelling, IsWhitespace;
    HeaderLine("", inline);
    assert "" + HEADER + inline == HEADER + inline;
    if first != [] {
      JoinEnds(first, firstTokens);
      LineTrims(Join(first));
    }
    HeaderStaysPlain(inline);
  }

  lemma HeaderStaysPlain(inline: string)
    requires inline == "" || PlainLine(inline)
    ensures PlainLine(HEADER + inline)
  {
    assert '\n' !in HEADER && HEADER[|HEADER| - 1] == ':';
  }

  lemma MixedRecord(banner: seq<string>, header: string, first: seq<string>, blanks: seq<string>, texts: seq<string>,
                    tokens: seq<string>, trailer: seq<string>)
    requires forall i :: 0 <= i < |banner| ==> Inline(banner[i]) == None
    requires Inline(header).Some? && Trim(Inline(header).value) == Join(first)
    requires forall i :: 0 <= i < |blanks| ==> Trim(blanks[i]) == ""
    requires forall i :: 0 <= i < |first| ==> first[i] != ""
    requires EndsList(trailer) && Flags(texts, tokens) && first + texts != [] && (first == [] || blanks == [])
    ensures Record(banner + [header] + (blanks + Listing(texts)) + trailer) == Some(Join(first + texts))
  {
    var list := Listing(texts) + trailer;
    assert Join([]) == "";
    AnyHeaderRecord(header, blanks + list);
    hide *;
    LinesInParts(banner, header, blanks, Listing(texts), trailer);
    RecordSkips(banner, [header] + (blanks + list));
    if first == [] {
      BlanksAreSkipped(blanks, list);
    } else {
      Regroup(list, [], [], []);
    }
    ContinuedListing(first, texts, tokens, trailer);
  }

  lemma LinesInParts(banner: seq<string>, header: string, blanks: seq<string>, list: seq<string>, trailer: seq<string>)
    ensures banner + [header] + (blanks + list) + trailer == banner + ([header] + (blanks + (list + trailer)))
  {
  }

  lemma AnyHeaderRecord(header: string, behind: seq<string>)
    requires Inline(header).Some?
    ensures Record([header] + behind) == Some(Continued(Trim(Inline(header).value), behind))
  {
    hide Inline, Trim, Continued;
    assert ([header] + behind)[1..] == behind;
  }

  /** A flag with its dashes plain and the rest in some form, as a list needs it. */
  function WrittenFlag(flag: string, form: Form): string
    requires |flag| >= 2
  {
    "--" + Written(flag[2..], form)
  }

  lemma WrittenFlagIsSpelling(flag: string, form: Form)
    requires StartsWith(flag, "--") && |flag| >= 2 && '\n' !in flag && Fits(flag[2..], form)
    ensures Spelling(WrittenFlag(flag, form), flag) && StartsWith(WrittenFlag(flag, form), "--")
  {
    var rest := flag[2..];
    assert flag == "--" + rest;
    DashesAreASpelling();
    if rest == "" && form.Escaped? {
      assert WrittenFlag(flag, form) == "--" == flag;
    } else {
      EndsOfWritten(rest, form);
      hide Spells, Written, Fits, IsWhitespace;
      SpellingsConcatenate("--", "--", Written(rest, form), rest);
      SpellingInFront("--", Written(rest, form), flag);
    }
    assert WrittenFlag(flag, form)[0..2] == "--";
  }

  lemma DashesAreASpelling()
    ensures Spelling("--", "--")
  {
    var e: Escaping := SPECIALS;
    EscapedIsSpelling(e, "--");
    hide Spelling;
    assert "--"[..1] == "-";
    assert Escape(e, "-") == "-" && Escape(e, "--") == "--";
  }

  lemma EndsOfWritten(token: string, form: Form)
    requires '\n' !in token && Fits(token, form) && (token != "" || !form.Escaped?)
    ensures var text := Written(token, form);
            Spells(text, token) && text != "" && '\n' !in text && !IsWhitespace(text[|text| - 1])
  {
    if token != "" {
      WrittenIsSpelling(token, form);
    } else {
      QuotesSpell(if form.InDoubleQuotes? then form.e else SPECIALS, "");
      hide Spells;
      EnclosedEnds(QUOTE, "");
      EnclosedEnds(DOUBLE, "");
    }
  }

  lemma SpellingInFront(front: string, text: string, token: string)
    requires Spells(front + text, token) && token != "" && front != "" && !IsWhitespace(front[0]) && '\n' !in front
    requires text != "" && '\n' !in text && !IsWhitespace(text[|text| - 1])
    ensures Spelling(front + text, token)
  {
    hide Spells, IsWhitespace;
  }

  /** Every list of flags, whatever else is in them, can be listed the way FFmpeg does and
      is judged by its flags. */
  lemma WrittenListVerdict(banner: seq<string>, flags: seq<string>, forms: seq<Form>, trailer: seq<string>)
    requires forall i :: 0 <= i < |banner| ==> PlainLine(banner[i]) && Inline(banner[i]) == None
    requires forall i :: 0 <= i < |trailer| ==> PlainLine(trailer[i])
    requires EndsList(trailer)
    requires |forms| == |flags| > 0
    requires forall i :: 0 <= i < |flags| ==>
               |flags[i]| >= 2 && StartsWith(flags[i], "--") && '\n' !in flags[i] && Fits(flags[i][2..], forms[i])
    ensures var texts := seq(|flags|, i requires 0 <= i < |flags| => WrittenFlag(flags[i], forms[i]));
            Verdict(Unlines(banner + ["  " + HEADER] + Listing(texts) + trailer)) == TokenVerdict(flags)
  {
    hide Verdict, TokenVerdict, Spelling, WrittenFlag, Fits, PlainLine, Inline, EndsList, StartsWith, Unlines, Listing;
    var texts := seq(|flags|, i requires 0 <= i < |flags| => WrittenFlag(flags[i], forms[i]));
    forall i | 0 <= i < |flags| ensures Spelling(texts[i], flags[i]) && StartsWith(texts[i], "--") {
      WrittenFlagIsSpelling(flags[i], forms[i]);
    }
    ListedVerdict(banner, texts, flags, trailer);
  }

  lemma AllPlain(banner: seq<string>, header: string, list: seq<string>, trailer: seq<string>)
    requires forall i :: 0 <= i < |banner| ==> PlainLine(banner[i])
    requires PlainLine(header)
    requires forall i :: 0 <= i < |list| ==> PlainLine(list[i])
    requires forall i :: 0 <= i < |trailer| ==> PlainLine(trailer[i])
    ensures var lines := banner + [header] + list + trailer; forall i :: 0 <= i < |lines| ==> PlainLine(lines[i])
  {
    hide PlainLine;
  }

  lemma LinesDecide(lines: seq<string>, record: string)
    requires forall i :: 0 <= i < |lines| ==> PlainLine(lines[i])
    requires Record(lines) == Some(record) && Tokens(record).Some?
    ensures Verdict(Unlines(lines)) == TokenVerdict(Tokens(record).value)
  {
    hide *;
    LinesOfUnlines(lines);
    RecordDecides(Unlines(lines), record);
  }

  lemma RecordDecides(text: string, record: string)
    requires Record(Lines(text)) == Some(record) && Tokens(record).Some?
    ensures Verdict(text) == TokenVerdict(Tokens(record).value)
  {
    hide Record, Lines, Tokens, TokenVerdict;
  }

  lemma HeaderIsPlain()
    ensures Inline("  " + HEADER) == Some("") && PlainLine("  " + HEADER)
  {
    HeaderLine("  ", "");
    assert "  " + HEADER + "" == "  " + HEADER;
  }

  lemma ListedRecord(banner: seq<string>, header: string, texts: seq<string>, tokens: seq<string>, trailer: seq<string>)
    requires forall i :: 0 <= i < |banner| ==> Inline(banner[i]) == None
    requires Inline(header) == Some("")
    requires EndsList(trailer)
    requires texts != [] && Flags(texts, tokens)
    ensures Record(banner + [header] + Listing(texts) + trailer) == Some(Join(texts))
  {
    var behind := Listing(texts) + trailer;
    assert Join([]) == "";
    HeaderRecord(header, behind);
    hide *;
    Regroup(banner, [header], Listing(texts), trailer);
    RecordSkips(banner, [header] + behind);
    ContinuedListing([], texts, tokens, trailer);
    Regroup(texts, [], [], []);
  }

  lemma HeaderRecord(header: string, behind: seq<string>)
    requires Inline(header) == Some("")
    ensures Record([header] + behind) == Some(Continued("", behind))
  {
    assert Trim("") == "";
    hide Inline, Trim, Continued;
    assert ([header] + behind)[1..] == behind;
  }

  // ---- the exception ---------------------------------------------------------------------

  /** The exception is real: a configuration that satisfies the whole policy, printed by
      the build script and refused. */
  lemma TrailingSpaceIsRefused(e: Escaping)
    requires EscapesSpecials(e)
    ensures TokenVerdict(BASELINE_FLAGS + ["--extra-version= "]).Ok?
    ensures Verdict(HEADER + " " + Print(e, BASELINE_FLAGS + ["--extra-version= "]) + "\n") == Err(Malformed)
  {
    var tokens := BASELINE_FLAGS + ["--extra-version= "];
    BaselineIsPlain();
    ExtendedIsPlain("--extra-version= ");
    TokenVerdictIsAllowed(tokens);
    assert LastChar(tokens) == "--extra-version= "[16] == ' ' && IsWhitespace(' ');
    hide *;
    PrintedLineVerdict(e, tokens);
  }

  /** The baseline with one more plain flag is allowed. */
  lemma ExtendedIsPlain(flag: string)
    requires flag != "" && '\n' !in flag && !EnablesRestricted(flag)
    requires forall i :: 0 <= i < |BASELINE_FLAGS| ==>
               BASELINE_FLAGS[i] != flag && !EnablesRestricted(BASELINE_FLAGS[i])
    requires forall i :: 0 <= i < |BASELINE_FLAGS| ==> BASELINE_FLAGS[i] != "" && '\n' !in BASELINE_FLAGS[i]
    requires Distinct(BASELINE_FLAGS)
    ensures Allowed(BASELINE_FLAGS + [flag])
    ensures forall i :: 0 <= i < |BASELINE_FLAGS + [flag]| ==>
              (BASELINE_FLAGS + [flag])[i] != "" && '\n' !in (BASELINE_FLAGS + [flag])[i]
  {
    hide BASELINE_FLAGS, EnablesRestricted;
  }

  lemma BaselineIsPlain()
    ensures |BASELINE_FLAGS| == 12 && Distinct(BASELINE_FLAGS)
    ensures forall i :: 0 <= i < 12 ==>
      BASELINE_FLAGS[i] != "" && '\n' !in BASELINE_FLAGS[i] && BASELINE_FLAGS[i] != "--extra-version= " &&
      !EnablesRestricted(BASELINE_FLAGS[i])
    ensures !EnablesRestricted("--extra-version= ") && '\n' !in "--extra-version= "
  {
    BaselineMarks();
    FlagMarksDiffer();
    hide MARKS, BASELINE_FLAGS, Marked, EnablesRestricted;
    forall i | 0 <= i < 12
      ensures BASELINE_FLAGS[i] != "" && '\n' !in BASELINE_FLAGS[i] && BASELINE_FLAGS[i] != "--extra-version= "
      ensures !EnablesRestricted(BASELINE_FLAGS[i])
    {
      MarkedDiffer(BASELINE_FLAGS[i], MARKS[i], "--extra-version= ", MARKS[12]);
      MarkedIsPlain(BASELINE_FLAGS[i], MARKS[i]);
    }
    MarkedIsPlain("--extra-version= ", MARKS[12]);
    forall i, j | 0 <= i < j < 12 ensures BASELINE_FLAGS[i] != BASELINE_FLAGS[j] {
      MarkedDiffer(BASELINE_FLAGS[i], MARKS[i], BASELINE_FLAGS[j], MARKS[j]);
    }
  }

  /** Length, tenth and last character: enough to tell the flags above apart. */
  const MARKS: seq<(int, char, char)> := [
    (20, 'a', 't'), (15, 'd', 'g'), (13, 'd', 'c'), (16, 'f', 'y'), (17, 'n', 'k'), (15, 'f', 'g'),
    (16, 'f', 'e'), (16, 'i', 's'), (15, 'i', 'x'), (17, 'e', '3'), (13, 'g', 'l'), (17, 'n', 'e'),
    (17, 'r', ' ')]

  predicate Marked(flag: string, mark: (int, char, char)) {
    && |flag| == mark.0 && |flag| >= 13 && flag[10] == mark.1 && flag[|flag| - 1] == mark.2
    && '\n' !in flag
    && (flag[3] == 'i' || flag[3] == 'x' || (flag[3] == 'n' && flag[9] != 'g' && flag[9] != 'n'))
  }

  lemma FlagMarksDiffer()
    ensures |MARKS| == 13 && forall i, j :: 0 <= i < j < 13 ==> MARKS[i] != MARKS[j]
  {
  }

  lemma BaselineMarks()
    ensures |BASELINE_FLAGS| == 12 && forall i :: 0 <= i < 12 ==> Marked(BASELINE_FLAGS[i], MARKS[i])
    ensures Marked("--extra-version= ", MARKS[12])
  {
  }

  lemma MarkedDiffer(one: string, mark: (int, char, char), other: string, otherMark: (int, char, char))
    requires Marked(one, mark) && Marked(other, otherMark) && mark != otherMark
    ensures one != other
  {
  }

  lemma MarkedIsPlain(flag: string, mark: (int, char, char))
    requires Marked(flag, mark)
    ensures flag != "" && '\n' !in flag && !EnablesRestricted(flag)
  {
    PrefixChar("--enable-gpl=", flag, 3);
    PrefixChar("--enable-gpl=", flag, 9);
    PrefixChar("--enable-nonfree=", flag, 3);
    PrefixChar("--enable-nonfree=", flag, 9);
    hide StartsWith;
  }

  lemma PrefixChar(part: string, text: string, i: nat)
    requires i < |part|
    ensures StartsWith(text, part) ==> i < |text| && text[i] == part[i]
  {
    assert StartsWith(text, part) ==> text[0..|part|][i] == text[i];
  }
}
