/** The build-configuration policy: finding the `configuration:` record in a text and
    deciding its tokens (crates/spike-release/src/ffmpeg_policy.rs). */
module BuildPolicy {
  import opened Prelude
  import opened Strings
  import opened Tokenizer

  const BASELINE_FLAGS: seq<string> := [
    "--disable-autodetect", "--disable-debug", "--disable-doc", "--disable-ffplay",
    "--disable-network", "--enable-ffmpeg", "--enable-ffprobe", "--enable-libopus",
    "--enable-libvpx", "--enable-version3", "--disable-gpl", "--disable-nonfree"]

  const FORBIDDEN_FLAGS: seq<string> := ["--enable-gpl", "--enable-nonfree"]

  const FORBIDDEN_PREFIXES: seq<string> := ["--enable-gpl=", "--enable-nonfree="]

  const HEADER: string := "configuration:"

  datatype BuildconfError =
    | MissingRecord
    | Malformed
    | DuplicateToken
    | ForbiddenFlag(flag: string)
    | MissingFlag(flag: string)

  // ---- lines and trimming ----------------------------------------------------------------

  predicate StartsWith(text: string, part: string) { OccursAt(part, text, 0) }

  function TrimStart(text: string): string {
    if text != "" && IsWhitespace(text[0]) then TrimStart(text[1..]) else text
  }

  function TrimEnd(text: string): string {
    if text != "" && IsWhitespace(text[|text| - 1]) then TrimEnd(text[..|text| - 1]) else text
  }

  function Trim(text: string): string { TrimEnd(TrimStart(text)) }

  /** The line ending of a line that stood before a line feed. */
  function WithoutReturn(line: string): string {
    if line != "" && line[|line| - 1] == '\r' then line[..|line| - 1] else line
  }

  /** `str::lines`. */
  function Lines(text: string): seq<string>
    decreases |text|
  {
    if text == "" then []
    else
      match Find("\n", text, 0)
      case None => [text]
      case Some(i) => [WithoutReturn(text[..i])] + Lines(text[i + 1..])
  }

  // ---- the record ------------------------------------------------------------------------

  /** What stands behind `configuration:` on a header line. */
  function Inline(line: string): Option<string> {
    var text := TrimStart(line);
    if StartsWith(text, HEADER) then Some(text[|HEADER|..]) else None
  }

  function Appended(record: string, continuation: string): string {
    if record == "" then continuation else record + " " + continuation
  }

  /** The record once the lines after its header have been taken in. */
  function Continued(record: string, lines: seq<string>): string
    decreases |lines|
  {
    if lines == [] then record
    else
      var continuation := Trim(lines[0]);
      if StartsWith(continuation, "--") then Continued(Appended(record, continuation), lines[1..])
      else if continuation != "" || record != "" then record
      else Continued(record, lines[1..])
  }

  function Record(lines: seq<string>): Option<string>
    decreases |lines|
  {
    if lines == [] then None
    else
      match Inline(lines[0])
      case None => Record(lines[1..])
      case Some(inline) => Some(Continued(Trim(inline), lines[1..]))
  }

  // ---- the verdict -----------------------------------------------------------------------

  function FirstIn(flags: seq<string>, tokens: seq<string>): Option<string>
    decreases |flags|
  {
    if flags == [] then None else if flags[0] in tokens then Some(flags[0]) else FirstIn(flags[1..], tokens)
  }

  function FirstNotIn(flags: seq<string>, tokens: seq<string>): Option<string>
    decreases |flags|
  {
    if flags == [] then None else if flags[0] !in tokens then Some(flags[0]) else FirstNotIn(flags[1..], tokens)
  }

  predicate Begins(tokens: seq<string>, prefix: string) {
    exists i :: 0 <= i < |tokens| && StartsWith(tokens[i], prefix)
  }

  /** The order of a `BTreeSet` of texts: by code points, as by bytes of UTF-8. */
  predicate AtMost(a: string, b: string) {
    a == "" || (b != "" && (a[0] < b[0] || (a[0] == b[0] && AtMost(a[1..], b[1..]))))
  }

  /** The least token that begins with `prefix`. */
  function Least(tokens: seq<string>, prefix: string): Option<string>
    decreases |tokens|
  {
    if tokens == [] then None
    else
      var token, rest := tokens[|tokens| - 1], Least(tokens[..|tokens| - 1], prefix);
      if !StartsWith(token, prefix) || (rest.Some? && AtMost(rest.value, token)) then rest else Some(token)
  }

  function FirstBegun(prefixes: seq<string>, tokens: seq<string>): Option<string>
    decreases |prefixes|
  {
    if prefixes == [] then None
    else if Least(tokens, prefixes[0]).Some? then Least(tokens, prefixes[0])
    else FirstBegun(prefixes[1..], tokens)
  }

  /** The verdict on a token list. */
  function TokenVerdict(tokens: seq<string>): Result<(), BuildconfError> {
    if !Distinct(tokens) then Err(DuplicateToken)
    else
      match FirstIn(FORBIDDEN_FLAGS, tokens)
      case Some(flag) => Err(ForbiddenFlag(flag))
      case None =>
        match FirstNotIn(BASELINE_FLAGS, tokens)
        case Some(flag) => Err(MissingFlag(flag))
        case None =>
          match FirstBegun(FORBIDDEN_PREFIXES, tokens)
          case Some(flag) => Err(ForbiddenFlag(flag))
          case None => Ok(())
  }

  function RecordVerdict(record: Option<string>): Result<(), BuildconfError> {
    if record == None then Err(MissingRecord)
    else
      match Tokens(record.value)
      case None => Err(Malformed)
      case Some(tokens) => TokenVerdict(tokens)
  }

  /** The verdict on a whole text. */
  function Verdict(text: string): Result<(), BuildconfError> { RecordVerdict(Record(Lines(text))) }

  /** The two nested loops over the lines. */
  method ReadRecord(lines: seq<string>) returns (configuration: Option<string>)
    ensures configuration == Record(lines)
  {
    hide Inline, Trim, StartsWith;
    configuration := None;
    var i := 0;
    while i < |lines|
      invariant 0 <= i <= |lines|
      invariant Record(lines) == Record(lines[i..])
    {
      var inline := Inline(lines[i]);
      assert lines[i..][1..] == lines[i + 1..];
      i := i + 1;
      if inline.Some? {
        var record := Trim(inline.value);
        while i < |lines|
          invariant 0 <= i <= |lines|
          invariant Record(lines) == Some(Continued(record, lines[i..]))
          decreases |lines| - i
        {
          var continuation := Trim(lines[i]);
          assert lines[i..][1..] == lines[i + 1..];
          i := i + 1;
          if StartsWith(continuation, "--") {
            record := Appended(record, continuation);
          } else if continuation != "" || record != "" {
            break;
          }
        }
        return Some(record);
      }
    }
  }

  /** `FfmpegBundle::validate_buildconf`. */
  method ValidateBuildconf(buildconf: string) returns (r: Result<(), BuildconfError>)
    ensures r == Verdict(buildconf)
  {
    hide Record, Lines, Tokens, BASELINE_FLAGS, FORBIDDEN_FLAGS, FORBIDDEN_PREFIXES;
    var configuration := ReadRecord(Lines(buildconf));
    if configuration.None? {
      return Err(MissingRecord);
    }
    var parsed := ParseTokens(configuration.value);
    if parsed.None? {
      return Err(Malformed);
    }
    var tokens := parsed.value;
    var values := set token | token in tokens;
    CountsDistinct(tokens);
    if |values| != |tokens| {
      return Err(DuplicateToken);
    }
    assert forall flag :: flag in values <==> flag in tokens;
    var flag := FindForbidden(values, tokens);
    if flag.Some? {
      return Err(ForbiddenFlag(flag.value));
    }
    flag := FindMissing(values, tokens);
    if flag.Some? {
      return Err(MissingFlag(flag.value));
    }
    for i := 0 to |FORBIDDEN_PREFIXES|
      invariant FirstBegun(FORBIDDEN_PREFIXES, tokens) == FirstBegun(FORBIDDEN_PREFIXES[i..], tokens)
    {
      assert FORBIDDEN_PREFIXES[i..][1..] == FORBIDDEN_PREFIXES[i + 1..];
      flag := FindBegun(tokens, FORBIDDEN_PREFIXES[i]);
      if flag.Some? {
        return Err(ForbiddenFlag(flag.value));
      }
    }
    return Ok(());
  }

  /** The loop over the two forbidden flags. */
  method FindForbidden(values: set<string>, ghost tokens: seq<string>) returns (flag: Option<string>)
    requires forall token :: token in values <==> token in tokens
    ensures flag == FirstIn(FORBIDDEN_FLAGS, tokens)
  {
    hide FORBIDDEN_FLAGS;
    for i := 0 to |FORBIDDEN_FLAGS|
      invariant FirstIn(FORBIDDEN_FLAGS, tokens) == FirstIn(FORBIDDEN_FLAGS[i..], tokens)
    {
      assert FORBIDDEN_FLAGS[i..][1..] == FORBIDDEN_FLAGS[i + 1..];
      if FORBIDDEN_FLAGS[i] in values {
        return Some(FORBIDDEN_FLAGS[i]);
      }
    }
    return None;
  }

  /** The loop over the baseline flags. */
  method FindMissing(values: set<string>, ghost tokens: seq<string>) returns (flag: Option<string>)
    requires forall token :: token in values <==> token in tokens
    ensures flag == FirstNotIn(BASELINE_FLAGS, tokens)
  {
    hide BASELINE_FLAGS;
    for i := 0 to |BASELINE_FLAGS|
      invariant FirstNotIn(BASELINE_FLAGS, tokens) == FirstNotIn(BASELINE_FLAGS[i..], tokens)
    {
      assert BASELINE_FLAGS[i..][1..] == BASELINE_FLAGS[i + 1..];
      if BASELINE_FLAGS[i] !in values {
        return Some(BASELINE_FLAGS[i]);
      }
    }
    return None;
  }

  /** The first match in the sorted set of tokens. */
  method FindBegun(tokens: seq<string>, prefix: string) returns (flag: Option<string>)
    ensures flag == Least(tokens, prefix)
  {
    hide StartsWith, AtMost;
    flag := None;
    for i := 0 to |tokens|
      invariant flag == Least(tokens[..i], prefix)
    {
      assert tokens[..i + 1][..i] == tokens[..i];
      if StartsWith(tokens[i], prefix) && (flag.None? || !AtMost(flag.value, tokens[i])) {
        flag := Some(tokens[i]);
      }
    }
    assert tokens[..|tokens|] == tokens;
  }

  lemma {:induction false} AtMostOrders(a: string, b: string, c: string)
    ensures AtMost(a, a) && (AtMost(a, b) || AtMost(b, a))
    ensures AtMost(a, b) && AtMost(b, c) ==> AtMost(a, c)
    ensures AtMost(a, b) && AtMost(b, a) ==> a == b
    decreases |a| + |b| + |c|
  {
    if a != "" && b != "" {
      AtMostOrders(a[1..], b[1..], if c == "" then c else c[1..]);
      assert a[0] == b[0] && a[1..] == b[1..] ==> a == [a[0]] + a[1..] == b;
    } else if a != "" {
      AtMostOrders(a[1..], b, c);
    }
  }

  /** Of all tokens with the prefix it is the least; there is none only if no token has it. */
  lemma {:induction false} LeastIsLeast(tokens: seq<string>, prefix: string)
    ensures Least(tokens, prefix).Some? <==> Begins(tokens, prefix)
    ensures Least(tokens, prefix).Some? ==>
              var flag := Least(tokens, prefix).value;
              && flag in tokens && StartsWith(flag, prefix)
              && forall token :: token in tokens && StartsWith(token, prefix) ==> AtMost(flag, token)
    decreases |tokens|
  {
    hide StartsWith, AtMost;
    if tokens != [] {
      var init, last := tokens[..|tokens| - 1], tokens[|tokens| - 1];
      LeastIsLeast(init, prefix);
      assert tokens == init + [last];
      assert Begins(tokens, prefix) <==> Begins(init, prefix) || StartsWith(last, prefix);
      var rest := Least(init, prefix);
      AtMostOrders(last, last, last);
      if rest.Some? {
        AtMostOrders(last, rest.value, rest.value);
        forall token | token in init && AtMost(rest.value, token) && AtMost(last, rest.value)
          ensures AtMost(last, token)
        {
          AtMostOrders(last, rest.value, token);
        }
      }
    }
  }

  // ---- what is accepted ------------------------------------------------------------------

  /** The policy on token lists, without an order of checks. */
  ghost predicate Allowed(tokens: seq<string>) {
    && Distinct(tokens)
    && (forall flag :: flag in BASELINE_FLAGS ==> flag in tokens)
    && (forall i :: 0 <= i < |tokens| ==> !EnablesRestricted(tokens[i]))
  }

  /** The token turns GPL or nonfree code on, with or without a value. */
  predicate EnablesRestricted(token: string) {
    || token == "--enable-gpl"
    || token == "--enable-nonfree"
    || StartsWith(token, "--enable-gpl=")
    || StartsWith(token, "--enable-nonfree=")
  }

  lemma {:induction false} FirstInIsAny(flags: seq<string>, tokens: seq<string>)
    ensures FirstIn(flags, tokens).None? <==> forall flag :: flag in flags ==> flag !in tokens
    ensures FirstNotIn(flags, tokens).None? <==> forall flag :: flag in flags ==> flag in tokens
    ensures FirstBegun(flags, tokens).None? <==> forall prefix :: prefix in flags ==> !Begins(tokens, prefix)
    decreases |flags|
  {
    hide Begins, Least;
    if flags != [] {
      LeastIsLeast(tokens, flags[0]);
      FirstInIsAny(flags[1..], tokens);
      assert flags == [flags[0]] + flags[1..];
      assert forall flag :: flag in flags <==> flag == flags[0] || flag in flags[1..];
    }
  }

  /** The faults in their order: a repetition, then a forbidden flag, the GPL one first, then
      the first baseline flag that is missing, then the least flag that gives a forbidden one
      a value, again the GPL one first. */
  lemma FaultsInOrder(tokens: seq<string>)
    ensures TokenVerdict(tokens) == Err(DuplicateToken) <==> !Distinct(tokens)
    ensures Distinct(tokens) && "--enable-gpl" in tokens ==> TokenVerdict(tokens) == Err(ForbiddenFlag("--enable-gpl"))
    ensures Distinct(tokens) && "--enable-gpl" !in tokens && "--enable-nonfree" in tokens ==>
              TokenVerdict(tokens) == Err(ForbiddenFlag("--enable-nonfree"))
  {
    hide Distinct, BASELINE_FLAGS, FirstNotIn, FirstBegun;
    assert FORBIDDEN_FLAGS[0] == "--enable-gpl" && FORBIDDEN_FLAGS[1] == "--enable-nonfree";
    assert FORBIDDEN_FLAGS[1..] == ["--enable-nonfree"] && FORBIDDEN_FLAGS[1..][1..] == [];
    assert FirstIn(FORBIDDEN_FLAGS[1..], tokens) ==
           if "--enable-nonfree" in tokens then Some("--enable-nonfree") else None;
  }

  lemma MissingFlagIsNamed(tokens: seq<string>, i: nat)
    requires Distinct(tokens) && "--enable-gpl" !in tokens && "--enable-nonfree" !in tokens
    requires i < |BASELINE_FLAGS| && BASELINE_FLAGS[i] !in tokens
    requires forall j :: 0 <= j < i ==> BASELINE_FLAGS[j] in tokens
    ensures TokenVerdict(tokens) == Err(MissingFlag(BASELINE_FLAGS[i]))
  {
    assert FORBIDDEN_FLAGS[1..] == ["--enable-nonfree"] && FORBIDDEN_FLAGS[1..][1..] == [];
    assert FirstIn(FORBIDDEN_FLAGS[1..], tokens) == None;
    FirstNotInIs(BASELINE_FLAGS, tokens, i);
    hide Distinct, BASELINE_FLAGS, FirstNotIn, FirstBegun;
  }

  lemma {:induction false} FirstNotInIs(flags: seq<string>, tokens: seq<string>, i: nat)
    requires i < |flags| && flags[i] !in tokens && forall j :: 0 <= j < i ==> flags[j] in tokens
    ensures FirstNotIn(flags, tokens) == Some(flags[i])
    decreases i
  {
    if i > 0 {
      assert flags[0] in tokens;
      assert forall j :: 0 <= j < i - 1 ==> flags[1..][j] == flags[j + 1];
      FirstNotInIs(flags[1..], tokens, i - 1);
    }
  }

  lemma ForbiddenValueIsNamed(tokens: seq<string>, flag: string)
    requires Distinct(tokens) && "--enable-gpl" !in tokens && "--enable-nonfree" !in tokens
    requires forall i :: 0 <= i < |BASELINE_FLAGS| ==> BASELINE_FLAGS[i] in tokens
    ensures Least(tokens, "--enable-gpl=") == Some(flag) ==> TokenVerdict(tokens) == Err(ForbiddenFlag(flag))
    ensures Least(tokens, "--enable-gpl=") == None && Least(tokens, "--enable-nonfree=") == Some(flag) ==>
              TokenVerdict(tokens) == Err(ForbiddenFlag(flag))
  {
    assert FORBIDDEN_FLAGS[1..] == ["--enable-nonfree"] && FORBIDDEN_FLAGS[1..][1..] == [];
    assert FirstIn(FORBIDDEN_FLAGS[1..], tokens) == None;
    assert FORBIDDEN_PREFIXES[1..] == ["--enable-nonfree="] && FORBIDDEN_PREFIXES[1..][1..] == [];
    NoneMissing(BASELINE_FLAGS, tokens);
    hide Distinct, BASELINE_FLAGS, FirstNotIn, Least;
    assert FirstBegun(FORBIDDEN_PREFIXES[1..], tokens) == Least(tokens, "--enable-nonfree=");
  }

  lemma {:induction false} NoneMissing(flags: seq<string>, tokens: seq<string>)
    requires forall i :: 0 <= i < |flags| ==> flags[i] in tokens
    ensures FirstNotIn(flags, tokens) == None
    decreases |flags|
  {
    if flags != [] {
      assert forall i :: 0 <= i < |flags| - 1 ==> flags[1..][i] == flags[i + 1];
      NoneMissing(flags[1..], tokens);
    }
  }

  lemma TokenVerdictIsAllowed(tokens: seq<string>)
    ensures TokenVerdict(tokens).Ok? <==> Allowed(tokens)
  {
    FirstInIsAny(FORBIDDEN_FLAGS, tokens);
    FirstInIsAny(BASELINE_FLAGS, tokens);
    FirstInIsAny(FORBIDDEN_PREFIXES, tokens);
    Restricted(tokens);
    hide StartsWith, BASELINE_FLAGS, FORBIDDEN_FLAGS, FORBIDDEN_PREFIXES, FirstIn, FirstNotIn, FirstBegun, Distinct,
      EnablesRestricted, Begins;
  }

  lemma Restricted(tokens: seq<string>)
    ensures (forall i :: 0 <= i < |tokens| ==> !EnablesRestricted(tokens[i])) <==>
            ((forall flag :: flag in FORBIDDEN_FLAGS ==> flag !in tokens) &&
             (forall prefix :: prefix in FORBIDDEN_PREFIXES ==> !Begins(tokens, prefix)))
  {
    hide StartsWith;
    var flags, prefixes := FORBIDDEN_FLAGS, FORBIDDEN_PREFIXES;
    assert flags[0] == "--enable-gpl" && flags[1] == "--enable-nonfree";
    assert prefixes[0] == "--enable-gpl=" && prefixes[1] == "--enable-nonfree=";
    if forall i :: 0 <= i < |tokens| ==> !EnablesRestricted(tokens[i]) {
    } else {
      var i :| 0 <= i < |tokens| && EnablesRestricted(tokens[i]);
      if tokens[i] == flags[0] || tokens[i] == flags[1] {
        assert tokens[i] in flags && tokens[i] in tokens;
      } else if StartsWith(tokens[i], prefixes[0]) {
        assert prefixes[0] in prefixes && Begins(tokens, prefixes[0]);
      } else {
        assert prefixes[1] in prefixes && Begins(tokens, prefixes[1]);
      }
    }
  }

  /** A text is accepted exactly when its first record lexes to an allowed token list:
      no repetition, every baseline flag, nothing that enables restricted code, however
      the flags are quoted or laid out. */
  lemma AcceptedMeansAllowed(text: string)
    ensures Verdict(text).Ok? <==>
            (Record(Lines(text)).Some? &&
             Tokens(Record(Lines(text)).value).Some? &&
             Allowed(Tokens(Record(Lines(text)).value).value))
  {
    var record := Record(Lines(text));
    hide Record, Lines, Tokens, TokenVerdict, Allowed;
    if record.Some? && Tokens(record.value).Some? {
      TokenVerdictIsAllowed(Tokens(record.value).value);
    }
  }

  /** Whatever stands before and after it, a record part that lexes to a restricted flag is refused. */
  lemma RestrictedFlagIsRefused(text: string, before: string, flag: string, after: string)
    requires Record(Lines(text)) == Some(before + " " + flag + " " + after)
    requires Run(START, before).Neutral()
    requires Tokens(flag).Some? && exists i :: 0 <= i < |Tokens(flag).value| && EnablesRestricted(Tokens(flag).value[i])
    ensures Verdict(text).Err?
  {
    hide *;
    var record := before + " " + flag + " " + after;
    ReadsThreeParts(before, flag, after);
    if Tokens(record).Some? {
      var tokens, part := Tokens(record).value, Tokens(flag).value;
      var i :| 0 <= i < |part| && EnablesRestricted(part[i]);
      assert part[i] in tokens;
      var k :| 0 <= k < |tokens| && tokens[k] == part[i];
      RestrictedIsRefused(tokens, k);
    }
    VerdictOfRecord(text, record);
  }

  /** What is between two spaces contributes its tokens to the whole. */
  lemma ReadsThreeParts(before: string, part: string, after: string)
    requires Run(START, before).Neutral() && Tokens(part).Some?
    ensures var whole := before + " " + part + " " + after;
            Tokens(whole).Some? ==> forall token :: token in Tokens(part).value ==> token in Tokens(whole).value
  {
    TokensAreComplete(part);
    TokensAreComplete(before + " " + part + " " + after);
    hide *;
    var left := before + " " + part;
    TokensOfJoined(before, part);
    TokensOfJoined(left, after);
  }

  lemma TokensAreComplete(text: string)
    ensures Tokens(text).Some? ==> Run(START, text).Neutral() && Tokens(text).value == Complete(Run(START, text))
  {
    hide Run;
  }

  lemma RestrictedIsRefused(tokens: seq<string>, k: nat)
    requires k < |tokens| && EnablesRestricted(tokens[k])
    ensures TokenVerdict(tokens).Err?
  {
    hide TokenVerdict, EnablesRestricted, Distinct, BASELINE_FLAGS;
    TokenVerdictIsAllowed(tokens);
  }

  lemma VerdictOfRecord(text: string, record: string)
    requires Record(Lines(text)) == Some(record)
    ensures Verdict(text) == if Tokens(record).Some? then TokenVerdict(Tokens(record).value) else Err(Malformed)
  {
    hide Record, Lines, Tokens, TokenVerdict;
  }
}
