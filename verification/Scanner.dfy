/** The two substring scanners of the evidence linter
    (apps/ovayra-spike/src/evidence_lint.rs). */
module Scanner {
  import opened Prelude
  import opened Strings
  import Tokenizer

  datatype Category = ApiKey | UploadHeader | PrivateKey | HomePath | UrlCredential | UploadUrl

  const SCHEMES: seq<string> := ["https://", "http://"]

  // ---- URLs ------------------------------------------------------------------------------

  /** The characters that end a URL in running text. */
  predicate Delimiter(c: char) {
    Tokenizer.IsWhitespace(c) || c == '\"' || c == '\'' || c == ')' || c == ']'
  }

  /** Where the URL that starts at or before `i` ends. */
  function UrlEnd(value: string, i: nat): (end: nat)
    requires i <= |value|
    ensures i <= end <= |value|
    ensures forall j :: i <= j < end ==> !Delimiter(value[j])
    ensures end < |value| ==> Delimiter(value[end])
    decreases |value| - i
  {
    if i == |value| || Delimiter(value[i]) then i else UrlEnd(value, i + 1)
  }

  /** The part of a text before its first slash. */
  function BeforeSlash(text: string): (r: string)
    ensures r <= text && '/' !in r
    ensures |r| < |text| ==> text[|r|] == '/'
  {
    if text == "" || text[0] == '/' then "" else [text[0]] + BeforeSlash(text[1..])
  }

  /** A scheme, in any letter case, starts at `i`. */
  predicate SchemeAt(value: string, scheme: string, i: nat) { OccursAt(scheme, Lower(value), i) }

  /** A scheme is never cut short: its URL reaches at least to its end. */
  lemma SchemeFits(value: string, scheme: string, i: nat)
    requires scheme in SCHEMES && SchemeAt(value, scheme, i)
    ensures i <= |value| && 0 < |scheme| && i + |scheme| <= UrlEnd(value, i)
  {
    var end := UrlEnd(value, i);
    if end < i + |scheme| {
      var d := end - i;
      assert LowerChar(value[end]) == Lower(value)[i..i + |scheme|][d] == scheme[d];
      SchemeChar(scheme, d);
      assert false;
    }
  }

  lemma SchemeChar(scheme: string, d: nat)
    requires scheme in SCHEMES && d < |scheme|
    ensures forall c :: LowerChar(c) == scheme[d] ==> !Delimiter(c)
    ensures d > 0 ==> scheme[d] != scheme[0]
  {
    assert scheme == "https://" || scheme == "http://";
    assert scheme[d] in {'h', 't', 'p', 's', ':', '/'};
  }

  /** Scheme occurrences do not overlap. */
  lemma SchemesApart(value: string, scheme: string, i: nat, d: nat)
    requires scheme in SCHEMES && SchemeAt(value, scheme, i) && 0 < d < |scheme|
    ensures !SchemeAt(value, scheme, i + d)
  {
    SchemeChar(scheme, d);
    assert Lower(value)[i..i + |scheme|][d] == Lower(value)[i + d] == scheme[d];
    if i + d + |scheme| <= |value| {
      assert Lower(value)[i + d..i + d + |scheme|][0] == Lower(value)[i + d];
    }
  }

  /** What is wrong with the URL at `i`, if a scheme starts there and anything is. */
  function Offence(value: string, scheme: string, i: nat): Option<Category>
    requires scheme in SCHEMES
  {
    if !SchemeAt(value, scheme, i) then None
    else
      SchemeFits(value, scheme, i);
      var url := value[i..UrlEnd(value, i)];
      UrlOffence(url, BeforeSlash(url[|scheme|..]))
  }

  function UrlOffence(url: string, authority: string): Option<Category> {
    if '?' in url || '#' in url || '@' in authority then Some(UrlCredential)
    else if Contains(Lower(authority), "upload") || Contains(Lower(url), "/upload/") then Some(UploadUrl)
    else None
  }

  /** No occurrence of a scheme from `lo` to before `hi` is anything to object to. */
  ghost predicate CleanRange(value: string, scheme: string, lo: nat, hi: nat)
    requires scheme in SCHEMES
  {
    forall i: nat :: lo <= i < hi ==> Offence(value, scheme, i) == None
  }

  ghost predicate Clean(value: string) {
    forall k: nat :: k < |SCHEMES| ==> CleanRange(value, SCHEMES[k], 0, |value|)
  }

  /** The occurrence at `i` of scheme `k` offends as `c`, and none looked at before it does:
      every `https://` is looked at before any `http://`. */
  ghost predicate FirstOffence(value: string, k: nat, i: nat, c: Category) {
    && k < |SCHEMES|
    && i < |value|
    && Offence(value, SCHEMES[k], i) == Some(c)
    && CleanRange(value, SCHEMES[k], 0, i)
    && forall m: nat :: m < k ==> CleanRange(value, SCHEMES[m], 0, |value|)
  }

  /** `scan_urls`: no occurrence at any position is missed, and the error is the first one's. */
  method ScanUrls(value: string) returns (r: Result<(), Category>)
    ensures r.Ok? <==> Clean(value)
    ensures r.Err? ==> exists k: nat, i: nat :: FirstOffence(value, k, i, r.error)
  {
    hide SCHEMES, OccursAt, Offence, UrlEnd, BeforeSlash;
    var lower := Lower(value);
    for k := 0 to |SCHEMES|
      invariant forall m: nat :: m < k ==> CleanRange(value, SCHEMES[m], 0, |value|)
    {
      var scheme := SCHEMES[k];
      var offset := 0;
      var index := Find(scheme, lower, offset);
      while index.Some?
        invariant offset <= |lower| == |value|
        invariant index == Find(scheme, lower, offset)
        invariant CleanRange(value, scheme, 0, offset)
        decreases |lower| - offset
      {
        var start := index.value;
        SchemeFits(value, scheme, start);
        SkipsNothing(value, scheme, offset, start);
        var end := UrlEnd(value, start);
        var url := value[start..end];
        var authority := BeforeSlash(url[|scheme|..]);
        assert Offence(value, scheme, start) == UrlOffence(url, authority) by { OffenceOfUrl(value, scheme, start); }
        if '?' in url || '#' in url || '@' in authority {
          assert FirstOffence(value, k, start, UrlCredential);
          return Err(UrlCredential);
        }
        if Contains(Lower(authority), "upload") || Contains(Lower(url), "/upload/") {
          assert FirstOffence(value, k, start, UploadUrl);
          return Err(UploadUrl);
        }
        SkipsNoOverlap(value, scheme, start);
        offset := start + |scheme|;
        index := Find(scheme, lower, offset);
      }
      SkipsNothing(value, scheme, offset, |value|);
    }
    return Ok(());
  }

  lemma OffenceOfUrl(value: string, scheme: string, i: nat)
    requires scheme in SCHEMES && SchemeAt(value, scheme, i)
    ensures i + |scheme| <= UrlEnd(value, i) && i < UrlEnd(value, i)
    ensures var url := value[i..UrlEnd(value, i)];
            Offence(value, scheme, i) == UrlOffence(url, BeforeSlash(url[|scheme|..]))
  {
    SchemeFits(value, scheme, i);
  }

  lemma SkipsNothing(value: string, scheme: string, lo: nat, hi: nat)
    requires scheme in SCHEMES && lo <= hi <= |value|
    requires forall i: nat :: lo <= i < hi ==> !SchemeAt(value, scheme, i)
    requires CleanRange(value, scheme, 0, lo)
    ensures CleanRange(value, scheme, 0, hi)
  {
  }

  /** Going on behind a harmless occurrence skips no other. */
  lemma SkipsNoOverlap(value: string, scheme: string, i: nat)
    requires scheme in SCHEMES && SchemeAt(value, scheme, i) && Offence(value, scheme, i) == None
    requires CleanRange(value, scheme, 0, i)
    ensures i < i + |scheme| <= |value| && CleanRange(value, scheme, 0, i + |scheme|)
  {
    SchemeFits(value, scheme, i);
    hide SchemeAt, Offence, SCHEMES, UrlEnd;
    forall j: nat | i < j < i + |scheme| ensures Offence(value, scheme, j) == None {
      SchemesApart(value, scheme, i, j - i);
      NoSchemeNoOffence(value, scheme, j);
    }
  }

  lemma NoSchemeNoOffence(value: string, scheme: string, i: nat)
    requires scheme in SCHEMES && !SchemeAt(value, scheme, i)
    ensures Offence(value, scheme, i) == None
  {
  }

  // ---- what is wrong with a URL, by position ---------------------------------------------

  /** The URL that starts at `i` ends at `end`: at the first character that cannot be in it. */
  ghost predicate EndsAt(value: string, i: nat, end: nat) {
    && i <= end <= |value| && (forall j :: i <= j < end ==> !Delimiter(value[j]))
    && (end < |value| ==> Delimiter(value[end]))
  }

  /** No query and no fragment begins in it, and no userinfo: an at sign comes behind a slash. */
  ghost predicate NoCredential(value: string, i: nat, start: nat, end: nat)
    requires i <= start <= end <= |value|
  {
    && (forall j :: i <= j < end ==> value[j] != '?' && value[j] != '#')
    && (forall j :: start <= j < end && value[j] == '@' ==> SlashWithin(value, start, j))
  }

  /** Its path has no part called upload, and its authority does not contain the word. */
  ghost predicate NoUpload(value: string, i: nat, start: nat, end: nat)
    requires i <= start <= end <= |value|
  {
    && (forall j: nat :: start <= j && j + 6 <= end && OccursAt("upload", Lower(value), j) ==>
          SlashWithin(value, start, j + 6))
    && (forall j: nat :: i <= j && j + 8 <= end ==> !OccursAt("/upload/", Lower(value), j))
  }

  ghost predicate SlashWithin(value: string, start: nat, end: nat)
    requires start <= end <= |value|
  {
    exists k :: start <= k < end && value[k] == '/'
  }

  lemma UrlEndIsEnd(value: string, i: nat, end: nat)
    requires EndsAt(value, i, end)
    ensures UrlEnd(value, i) == end
  {
    hide Delimiter;
  }

  /** What comes before the first slash, by position. */
  lemma AuthorityReaches(value: string, start: nat, end: nat, j: nat)
    requires start <= j <= end <= |value|
    ensures j <= start + |BeforeSlash(value[start..end])| <==> !SlashWithin(value, start, j)
    ensures |BeforeSlash(value[start..end])| <= end - start
    ensures start + |BeforeSlash(value[start..end])| < end ==> value[start + |BeforeSlash(value[start..end])|] == '/'
  {
    var authority := BeforeSlash(value[start..end]);
    var stop := start + |authority|;
    hide BeforeSlash;
    assert forall k :: start <= k < stop ==> value[k] == authority[k - start];
    if stop < j {
      assert value[start..end][|authority|] == value[stop];
    }
  }

  lemma LowerOfPart(value: string, lo: nat, hi: nat, part: string)
    requires lo <= hi <= |value|
    ensures Contains(Lower(value[lo..hi]), part) <==>
            exists j: nat :: lo <= j && j + |part| <= hi && OccursAt(part, Lower(value), j)
  {
    var lower := Lower(value[lo..hi]);
    ContainsIsOccurs(lower, part);
    assert lower == Lower(value)[lo..hi];
    hide Lower, Contains;
    forall i: nat | lo + i + |part| <= hi
      ensures OccursAt(part, lower, i) <==> OccursAt(part, Lower(value), lo + i)
    {
      OccursInPart(part, Lower(value), lo, hi, i);
    }
    hide OccursAt;
    if i: nat :| OccursAt(part, lower, i) {
      OccursFits(part, lower, i);
      assert OccursAt(part, Lower(value), lo + i);
    }
    if j: nat :| lo <= j && j + |part| <= hi && OccursAt(part, Lower(value), j) {
      var i: nat := j - lo;
      assert OccursAt(part, Lower(value), lo + i);
      assert OccursAt(part, lower, i);
    }
  }

  lemma OccursFits(part: string, text: string, i: nat)
    requires OccursAt(part, text, i)
    ensures i + |part| <= |text|
  {
  }

  lemma OccursInPart(part: string, text: string, lo: nat, hi: nat, i: nat)
    requires lo <= hi <= |text| && lo + i + |part| <= hi
    ensures OccursAt(part, text[lo..hi], i) <==> OccursAt(part, text, lo + i)
  {
    var inner, outer := text[lo..hi][i..i + |part|], text[lo + i..lo + i + |part|];
    assert forall d :: 0 <= d < |part| ==> inner[d] == text[lo + i + d] == outer[d];
    assert inner == outer;
  }

  /** A URL gives offence exactly if it has a query, a fragment or userinfo, or else says
      upload where it matters. */
  lemma OffenceExactly(value: string, scheme: string, i: nat, end: nat)
    requires scheme in SCHEMES && SchemeAt(value, scheme, i) && EndsAt(value, i, end)
    ensures i + |scheme| <= end
    ensures Offence(value, scheme, i) == Some(UrlCredential) <==> !NoCredential(value, i, i + |scheme|, end)
    ensures Offence(value, scheme, i) == None <==>
            NoCredential(value, i, i + |scheme|, end) && NoUpload(value, i, i + |scheme|, end)
  {
    UrlEndIsEnd(value, i, end);
    SchemeFits(value, scheme, i);
    OffenceOfUrl(value, scheme, i);
    var start := i + |scheme|;
    var url := value[i..end];
    assert url[|scheme|..] == value[start..end];
    hide SCHEMES, SchemeAt, Offence, EndsAt, UrlEnd;
    CredentialByPosition(value, i, start, end);
    UploadByPosition(value, i, start, end);
    hide NoCredential, NoUpload, BeforeSlash, Contains, Lower;
  }

  lemma CredentialByPosition(value: string, i: nat, start: nat, end: nat)
    requires i <= start <= end <= |value|
    ensures NoCredential(value, i, start, end) <==>
            '?' !in value[i..end] && '#' !in value[i..end] && '@' !in BeforeSlash(value[start..end])
  {
    var authority := BeforeSlash(value[start..end]);
    var stop := start + |authority|;
    AuthorityReaches(value, start, end, start);
    assert forall k :: 0 <= k < |authority| ==> authority[k] == value[start + k];
    assert forall j :: i <= j < end ==> value[j] == value[i..end][j - i];
    hide BeforeSlash, SlashWithin;
    if NoCredential(value, i, start, end) {
      forall k | 0 <= k < |authority| ensures authority[k] != '@' {
        AuthorityReaches(value, start, end, start + k);
      }
    }
    if '@' !in authority {
      forall j | start <= j < stop ensures value[j] != '@' {
        assert authority[j - start] == value[j];
      }
      forall j | start <= j < end && value[j] == '@' ensures SlashWithin(value, start, j) {
        AuthorityReaches(value, start, end, j);
      }
    }
  }

  lemma UploadByPosition(value: string, i: nat, start: nat, end: nat)
    requires i <= start <= end <= |value|
    ensures NoUpload(value, i, start, end) <==>
            !Contains(Lower(BeforeSlash(value[start..end])), "upload") && !Contains(Lower(value[i..end]), "/upload/")
  {
    WordByPosition(value, start, end);
    LowerOfPart(value, i, end, "/upload/");
    hide BeforeSlash, Contains, Lower, SlashWithin, OccursAt;
  }

  lemma WordByPosition(value: string, start: nat, end: nat)
    requires start <= end <= |value|
    ensures !Contains(Lower(BeforeSlash(value[start..end])), "upload") <==>
            forall j: nat :: start <= j && j + 6 <= end && OccursAt("upload", Lower(value), j) ==>
              SlashWithin(value, start, j + 6)
  {
    var stop := start + |BeforeSlash(value[start..end])|;
    AuthorityReaches(value, start, end, start);
    assert BeforeSlash(value[start..end]) == value[start..stop];
    LowerOfPart(value, start, stop, "upload");
    hide BeforeSlash, Contains, Lower, SlashWithin, OccursAt;
    forall j: nat | start <= j && j + 6 <= end && OccursAt("upload", Lower(value), j)
      ensures j + 6 <= stop <==> !SlashWithin(value, start, j + 6)
    {
      AuthorityReaches(value, start, end, j + 6);
    }
  }

  /** A text is clean exactly if no URL in it has a query, a fragment or userinfo, or says
      upload where it matters. */
  lemma CleanExactly(value: string)
    ensures Clean(value) <==>
            forall scheme, i: nat, end: nat ::
              scheme in SCHEMES && SchemeAt(value, scheme, i) && EndsAt(value, i, end) && i + |scheme| <= end ==>
                NoCredential(value, i, i + |scheme|, end) && NoUpload(value, i, i + |scheme|, end)
  {
    hide NoCredential, NoUpload, SchemeAt, Offence, Delimiter;
    if Clean(value) {
      forall scheme, i: nat, end: nat |
        scheme in SCHEMES && SchemeAt(value, scheme, i) && EndsAt(value, i, end) && i + |scheme| <= end
        ensures NoCredential(value, i, i + |scheme|, end) && NoUpload(value, i, i + |scheme|, end)
      {
        OffenceExactly(value, scheme, i, end);
        CleanAt(value, scheme, i);
      }
    }
    if forall scheme, i: nat, end: nat ::
         scheme in SCHEMES && SchemeAt(value, scheme, i) && EndsAt(value, i, end) && i + |scheme| <= end ==>
           NoCredential(value, i, i + |scheme|, end) && NoUpload(value, i, i + |scheme|, end) {
      forall k: nat, i: nat | k < |SCHEMES| && i < |value| ensures Offence(value, SCHEMES[k], i) == None {
        if SchemeAt(value, SCHEMES[k], i) {
          assert EndsAt(value, i, UrlEnd(value, i));
          OffenceExactly(value, SCHEMES[k], i, UrlEnd(value, i));
        } else {
          NoSchemeNoOffence(value, SCHEMES[k], i);
        }
      }
    }
  }

  lemma CleanAt(value: string, scheme: string, i: nat)
    requires scheme in SCHEMES && Clean(value) && SchemeAt(value, scheme, i)
    ensures Offence(value, scheme, i) == None
  {
    SchemeFits(value, scheme, i);
    hide Offence, SchemeAt;
    var k :| 0 <= k < |SCHEMES| && SCHEMES[k] == scheme;
    assert CleanRange(value, SCHEMES[k], 0, |value|);
  }

  // ---- letter case and position ----------------------------------------------------------

  lemma {:induction false} UrlEndOfLower(value: string, i: nat)
    requires i <= |value|
    ensures UrlEnd(Lower(value), i) == UrlEnd(value, i)
    decreases |value| - i
  {
    if i < |value| {
      assert Delimiter(LowerChar(value[i])) <==> Delimiter(value[i]);
      UrlEndOfLower(value, i + 1);
    }
  }

  lemma {:induction false} BeforeSlashOfLower(text: string)
    ensures BeforeSlash(Lower(text)) == Lower(BeforeSlash(text))
    decreases |text|
  {
    if text != "" {
      assert Lower(text)[0] == LowerChar(text[0]);
      assert Lower(text)[1..] == Lower(text[1..]);
      BeforeSlashOfLower(text[1..]);
    }
  }

  lemma LowerKeepsMarks(text: string, c: char)
    requires LowerChar(c) == c && !('a' <= c <= 'z')
    ensures c in Lower(text) <==> c in text
    ensures Lower(Lower(text)) == Lower(text)
  {
    forall i | 0 <= i < |text| ensures Lower(text)[i] == c <==> text[i] == c {
    }
    assert Lower(Lower(text)) == Lower(text);
  }

  lemma UrlOffenceOfLower(url: string, authority: string)
    ensures UrlOffence(Lower(url), Lower(authority)) == UrlOffence(url, authority)
  {
    LowerKeepsMarks(url, '?');
    LowerKeepsMarks(url, '#');
    LowerKeepsMarks(authority, '@');
    hide Lower, Contains;
  }

  /** Rewriting a text in lower case changes no finding. */
  lemma LetterCaseDoesNotMatter(value: string, scheme: string, i: nat)
    requires scheme in SCHEMES
    ensures Offence(Lower(value), scheme, i) == Offence(value, scheme, i)
  {
    LowerKeepsMarks(value, '?');
    hide Lower, UrlOffence, BeforeSlash, UrlEnd, SCHEMES, OccursAt;
    if SchemeAt(value, scheme, i) {
      OffenceOfUrl(value, scheme, i);
      OffenceOfUrl(Lower(value), scheme, i);
      UrlEndOfLower(value, i);
      UrlOfLower(value, i, UrlEnd(value, i), |scheme|);
      var url := value[i..UrlEnd(value, i)];
      BeforeSlashOfLower(url[|scheme|..]);
      UrlOffenceOfLower(url, BeforeSlash(url[|scheme|..]));
    }
  }

  lemma UrlOfLower(value: string, i: nat, end: nat, n: nat)
    requires i + n <= end <= |value|
    ensures Lower(value)[i..end] == Lower(value[i..end])
    ensures Lower(value[i..end])[n..] == Lower(value[i..end][n..])
  {
  }

  /** The findings of two places with the same scheme and the same URL are the same. */
  lemma SameUrl(value: string, i: nat, other: string, j: nat, scheme: string)
    requires scheme in SCHEMES
    requires SchemeAt(value, scheme, i) <==> SchemeAt(other, scheme, j)
    requires SchemeAt(value, scheme, i) ==>
               i <= |value| && j <= |other| && value[i..UrlEnd(value, i)] == other[j..UrlEnd(other, j)]
    ensures Offence(value, scheme, i) == Offence(other, scheme, j)
  {
    if SchemeAt(value, scheme, i) {
      OffenceOfUrl(value, scheme, i);
      OffenceOfUrl(other, scheme, j);
    }
    hide UrlOffence, BeforeSlash, UrlEnd, SCHEMES;
  }

  lemma {:induction false} UrlEndBefore(a: string, rest: string, i: nat)
    requires i <= |a| && rest != "" && Delimiter(rest[0])
    ensures UrlEnd(a + rest, i) == UrlEnd(a, i)
    decreases |a| - i
  {
    if i < |a| {
      assert (a + rest)[i] == a[i];
      UrlEndBefore(a, rest, i + 1);
    } else {
      assert (a + rest)[i] == rest[0];
    }
  }

  lemma {:induction false} UrlEndBehind(front: string, b: string, j: nat)
    requires j <= |b|
    ensures UrlEnd(front + b, |front| + j) == |front| + UrlEnd(b, j)
    decreases |b| - j
  {
    if j < |b| {
      assert (front + b)[|front| + j] == b[j];
      UrlEndBehind(front, b, j + 1);
    }
  }

  lemma LowerOfParts(a: string, b: string)
    ensures Lower(a + b) == Lower(a) + Lower(b)
  {
    assert forall i :: 0 <= i < |a| ==> (a + b)[i] == a[i];
    assert forall i :: 0 <= i < |b| ==> (a + b)[|a| + i] == b[i];
  }

  /** Behind a front part, the findings are those of the rest, moved. */
  lemma OffenceBehind(front: string, b: string, scheme: string, j: nat)
    requires scheme in SCHEMES
    ensures Offence(front + b, scheme, |front| + j) == Offence(b, scheme, j)
  {
    var text := front + b;
    SchemeBehind(front, b, scheme, j);
    hide Offence, SCHEMES;
    if SchemeAt(b, scheme, j) {
      SchemeFits(b, scheme, j);
      UrlEndBehind(front, b, j);
      var end := UrlEnd(b, j);
      assert text[|front| + j..|front| + end] == b[j..end];
    }
    SameUrl(text, |front| + j, b, j, scheme);
  }

  lemma SchemeBehind(front: string, b: string, scheme: string, j: nat)
    ensures SchemeAt(front + b, scheme, |front| + j) <==> SchemeAt(b, scheme, j)
  {
    LowerOfParts(front, b);
    if j + |scheme| <= |b| {
      assert Lower(front + b)[|front| + j..|front| + j + |scheme|] == Lower(b)[j..j + |scheme|];
    }
  }

  /** In front of a delimiter, the findings are those of the front part alone. */
  lemma OffenceBefore(a: string, rest: string, scheme: string, i: nat)
    requires scheme in SCHEMES && rest != "" && Delimiter(rest[0]) && i <= |a|
    ensures Offence(a + rest, scheme, i) == Offence(a, scheme, i)
  {
    var text := a + rest;
    SchemeBefore(a, rest, scheme, i);
    hide Offence, SCHEMES;
    UrlEndBefore(a, rest, i);
    var end := UrlEnd(a, i);
    assert text[i..end] == a[i..end];
    SameUrl(text, i, a, i, scheme);
  }

  lemma SchemeBefore(a: string, rest: string, scheme: string, i: nat)
    requires scheme in SCHEMES && rest != "" && Delimiter(rest[0]) && i <= |a|
    ensures SchemeAt(a + rest, scheme, i) <==> SchemeAt(a, scheme, i)
  {
    LowerOfParts(a, rest);
    if i + |scheme| <= |a| {
      assert Lower(a + rest)[i..i + |scheme|] == Lower(a)[i..i + |scheme|];
    } else if SchemeAt(a + rest, scheme, i) {
      SchemeFits(a + rest, scheme, i);
      UrlEndBefore(a, rest, i);
      assert false;
    }
  }

  /** Text split at any delimiter, a line end above all, is clean exactly when its parts are:
      scanning a file whole and line by line comes to the same. */
  lemma PartsAreScannedApart(a: string, c: char, b: string)
    requires Delimiter(c)
    ensures Clean(a + [c] + b) <==> Clean(a) && Clean(b)
  {
    var text := a + [c] + b;
    assert text == a + ([c] + b);
    hide SCHEMES, Offence, Delimiter;
    forall k: nat | k < |SCHEMES|
      ensures CleanRange(text, SCHEMES[k], 0, |text|) <==>
              CleanRange(a, SCHEMES[k], 0, |a|) && CleanRange(b, SCHEMES[k], 0, |b|)
    {
      RangeOfParts(a, c, b, SCHEMES[k]);
    }
  }

  lemma RangeOfParts(a: string, c: char, b: string, scheme: string)
    requires Delimiter(c) && scheme in SCHEMES
    ensures CleanRange(a + [c] + b, scheme, 0, |a| + 1 + |b|) <==>
            CleanRange(a, scheme, 0, |a|) && CleanRange(b, scheme, 0, |b|)
  {
    var text, front := a + [c] + b, a + [c];
    hide SCHEMES, Offence, Delimiter;
    assert text == a + ([c] + b) && text == front + b;
    NothingAtEnd(a, scheme);
    forall i: nat | i <= |a| ensures Offence(text, scheme, i) == Offence(a, scheme, i) {
      OffenceBefore(a, [c] + b, scheme, i);
    }
    forall j: nat ensures Offence(text, scheme, |front| + j) == Offence(b, scheme, j) {
      OffenceBehind(front, b, scheme, j);
    }
    if CleanRange(text, scheme, 0, |text|) {
      forall j: nat | j < |b| ensures Offence(b, scheme, j) == None {
        assert Offence(text, scheme, |front| + j) == None;
      }
    }
    if CleanRange(a, scheme, 0, |a|) && CleanRange(b, scheme, 0, |b|) {
      forall i: nat | i < |text| ensures Offence(text, scheme, i) == None {
        if i > |a| {
          var j: nat := i - |front|;
          assert Offence(text, scheme, |front| + j) == Offence(b, scheme, j);
        }
      }
    }
  }

  lemma NothingAtEnd(a: string, scheme: string)
    requires scheme in SCHEMES
    ensures Offence(a, scheme, |a|) == None
  {
    if SchemeAt(a, scheme, |a|) {
      SchemeFits(a, scheme, |a|);
      assert false;
    }
  }

  // ---- armoured private keys -------------------------------------------------------------

  const BEGIN: string := "-----begin "
  const DASHES: string := "-----"
  const KEY: string := "private key"

  /** An armour header at `i`, closed by the first run of dashes behind it at `c`, has the
      key marker between its opening and its closing. */
  predicate NamesKey(text: string, i: nat, j: nat, c: nat) {
    && OccursAt(BEGIN, text, i)
    && i + |BEGIN| <= j && j + |KEY| <= c
    && OccursAt(KEY, text, j)
    && OccursAt(DASHES, text, c)
    && forall d: nat :: i + |BEGIN| <= d < c ==> !OccursAt(DASHES, text, d)
  }

  ghost predicate KeyHeaderAt(text: string, i: nat) {
    exists j: nat, c: nat :: NamesKey(text, i, j, c)
  }

  /** `contains_armored_private_key`: true exactly when some header at any position names a
      private key. Giving up at an unclosed header misses nothing. */
  method ContainsArmoredPrivateKey(value: string) returns (found: bool)
    ensures found <==> exists i: nat :: KeyHeaderAt(value, i)
  {
    hide OccursAt, BEGIN, DASHES, KEY;
    BeginIsLong();
    var remaining := 0;
    var start := Find(BEGIN, value, remaining);
    while start.Some?
      invariant remaining <= |value|
      invariant start == Find(BEGIN, value, remaining)
      invariant forall i: nat :: i < remaining ==> !KeyHeaderAt(value, i)
      decreases |value| - remaining
    {
      var header := start.value;
      BeginFits(value, header);
      NoHeaderBetween(value, remaining, header);
      var end := Find(DASHES, value, header + |BEGIN|);
      if end.None? {
        Unclosed(value, header);
        return false;
      }
      HeaderName(value, header, end.value);
      if Contains(value[header..end.value], KEY) {
        return true;
      }
      remaining := header + |BEGIN|;
      start := Find(BEGIN, value, remaining);
    }
    NoHeaderBetween(value, remaining, |value|);
    forall i: nat ensures !KeyHeaderAt(value, i) {
      if i >= |value| {
        BeginIsShort(value, i);
      }
    }
    return false;
  }

  lemma BeginIsLong()
    ensures |BEGIN| == 11 && |DASHES| == 5 && BEGIN[..5] == DASHES && |KEY| == 11 && KEY[0] == 'p'
    ensures forall e :: 0 <= e <= 4 ==> BEGIN[e] == '-'
    ensures BEGIN[5] == 'b' && forall e :: 6 <= e < 11 ==> BEGIN[e] != '-'
    ensures forall e :: 0 <= e < 11 ==> BEGIN[e] != 'p'
  {
    assert |BEGIN| == 11;
    assert BEGIN[0] == '-' && BEGIN[1] == '-' && BEGIN[2] == '-' && BEGIN[3] == '-' && BEGIN[4] == '-';
    assert BEGIN[5] == 'b' && BEGIN[6] == 'e' && BEGIN[7] == 'g' && BEGIN[8] == 'i' && BEGIN[9] == 'n' &&
      BEGIN[10] == ' ';
  }

  lemma BeginIsShort(value: string, i: nat)
    requires i >= |value|
    ensures !KeyHeaderAt(value, i)
  {
  }

  lemma BeginFits(value: string, i: nat)
    requires OccursAt(BEGIN, value, i)
    ensures i + |BEGIN| <= |value|
  {
  }

  lemma NoHeaderBetween(value: string, lo: nat, hi: nat)
    requires forall i: nat :: lo <= i < hi ==> !OccursAt(BEGIN, value, i)
    ensures forall i: nat :: lo <= i < hi ==> !KeyHeaderAt(value, i)
  {
  }

  /** Occurrences of the opening do not overlap. */
  lemma BeginsApart(value: string, i: nat, d: nat)
    requires OccursAt(BEGIN, value, i) && 0 < d < |BEGIN|
    ensures !OccursAt(BEGIN, value, i + d)
  {
    BeginIsLong();
    hide BEGIN, DASHES, KEY, OccursAt;
    CharAt(BEGIN, value, i, 5);
    CharAt(BEGIN, value, i, d);
    if d <= 5 {
      CharAt(BEGIN, value, i + d, 5 - d);
    } else {
      CharAt(BEGIN, value, i + d, 0);
    }
  }

  lemma CharAt(part: string, text: string, i: nat, d: nat)
    requires d < |part|
    ensures OccursAt(part, text, i) ==> i + d < |text| && text[i + d] == part[d]
  {
    if OccursAt(part, text, i) {
      assert text[i..i + |part|][d] == text[i + d];
    }
  }

  /** An opening behind an opening brings the dashes that close it. */
  lemma Unclosed(value: string, i: nat)
    requires OccursAt(BEGIN, value, i)
    requires forall d: nat :: i + |BEGIN| <= d ==> !OccursAt(DASHES, value, d)
    requires forall h: nat :: h < i ==> !KeyHeaderAt(value, h)
    ensures forall h: nat :: !KeyHeaderAt(value, h)
  {
    BeginIsLong();
    hide BEGIN, DASHES, KEY;
    forall h: nat | h >= i ensures !KeyHeaderAt(value, h) {
      if h == i {
      } else if h < i + |BEGIN| {
        BeginsApart(value, i, h - i);
      } else {
        BeginHasDashes(value, h);
      }
    }
  }

  lemma BeginHasDashes(value: string, h: nat)
    ensures OccursAt(BEGIN, value, h) ==> OccursAt(DASHES, value, h)
  {
    BeginIsLong();
    hide BEGIN, DASHES;
    if OccursAt(BEGIN, value, h) {
      assert value[h..h + 5] == value[h..h + 11][..5];
    }
  }

  /** A closed opening decides itself and every position it covers. */
  lemma HeaderName(value: string, i: nat, c: nat)
    requires OccursAt(BEGIN, value, i) && Find(DASHES, value, i + |BEGIN|) == Some(c)
    ensures i + |BEGIN| <= c <= |value|
    ensures Contains(value[i..c], KEY) <==> KeyHeaderAt(value, i)
    ensures forall h: nat :: i < h < i + |BEGIN| ==> !KeyHeaderAt(value, h)
  {
    forall h: nat | i < h < i + |BEGIN| ensures !KeyHeaderAt(value, h) {
      BeginsApart(value, i, h - i);
    }
    hide OccursAt, BEGIN, DASHES, KEY;
    DashesFit(value, c);
    if Contains(value[i..c], KEY) {
      NameIsKey(value, i, c);
    }
    if KeyHeaderAt(value, i) {
      KeyIsName(value, i, c);
    }
  }

  lemma DashesFit(value: string, c: nat)
    requires OccursAt(DASHES, value, c)
    ensures c <= |value|
  {
  }

  lemma SliceOfSlice(text: string, i: nat, c: nat, lo: nat, hi: nat)
    requires lo <= hi && i + hi <= c <= |text|
    ensures text[i..c][lo..hi] == text[i + lo..i + hi]
  {
    assert forall k :: 0 <= k < hi - lo ==> text[i..c][lo..hi][k] == text[i + lo..i + hi][k];
  }

  lemma NameIsKey(value: string, i: nat, c: nat)
    requires OccursAt(BEGIN, value, i) && i + |BEGIN| <= c <= |value|
    requires Find(DASHES, value, i + |BEGIN|) == Some(c)
    requires Contains(value[i..c], KEY)
    ensures KeyHeaderAt(value, i)
  {
    hide BEGIN, DASHES, KEY;
    var name := value[i..c];
    var j := Find(KEY, name, 0).value;
    SliceOfSlice(value, i, c, j, j + |KEY|);
    assert OccursAt(KEY, value, i + j);
    KeyBehindBegin(value, i, i + j);
    assert NamesKey(value, i, i + j, c);
  }

  lemma KeyIsName(value: string, i: nat, c: nat)
    requires i + |BEGIN| <= c <= |value|
    requires Find(DASHES, value, i + |BEGIN|) == Some(c)
    requires KeyHeaderAt(value, i)
    ensures Contains(value[i..c], KEY)
  {
    hide BEGIN, DASHES, KEY, Find, OccursAt, NamesKey;
    var j: nat, e: nat :| NamesKey(value, i, j, e);
    ClosedFirst(value, i, j, e, c);
    var at: nat := j - i;
    OccursInPart(KEY, value, i, c, at);
    ContainsIsOccurs(value[i..c], KEY);
    assert OccursAt(KEY, value[i..c], at);
  }

  lemma ClosedFirst(value: string, i: nat, j: nat, e: nat, c: nat)
    requires NamesKey(value, i, j, e) && i + |BEGIN| <= |value|
    requires Find(DASHES, value, i + |BEGIN|) == Some(c)
    ensures e == c && i <= j && j + |KEY| <= c && OccursAt(KEY, value, j)
  {
    hide BEGIN, DASHES, KEY, OccursAt;
    assert OccursAt(DASHES, value, c);
  }

  /** The marker does not start inside the opening. */
  lemma KeyBehindBegin(value: string, i: nat, j: nat)
    requires OccursAt(BEGIN, value, i) && OccursAt(KEY, value, j) && i <= j
    ensures i + |BEGIN| <= j
  {
    BeginIsLong();
    hide BEGIN, KEY, OccursAt;
    CharAt(KEY, value, j, 0);
    if j < i + 11 {
      CharAt(BEGIN, value, i, j - i);
    }
  }

  // ---- the whole scan of a text ----------------------------------------------------------

  const KEY_MARKS: seq<string> := [
    "aiza", "sk-", "ya29.", "akia", "api_key=", "api-key=", "authorization: bearer", "bearer "]

  const HOME_MARKS: seq<string> := ["/users/", "/home/", ":\\users\\"]

  /** One of the marks stands somewhere in the text. */
  ghost predicate Marked(text: string, marks: seq<string>) {
    exists m: nat :: m < |marks| && Occurs(marks[m], text)
  }

  /** `iter().any(|mark| text.contains(mark))`. */
  method ContainsAny(text: string, marks: seq<string>) returns (found: bool)
    ensures found <==> Marked(text, marks)
  {
    hide Occurs;
    for m := 0 to |marks|
      invariant forall e: nat :: e < m ==> !Occurs(marks[e], text)
    {
      ContainsIsOccurs(text, marks[m]);
      if Contains(text, marks[m]) {
        return true;
      }
    }
    return false;
  }

  /** The marks, one by one. */
  lemma MarksAreThese(text: string)
    ensures Marked(text, KEY_MARKS) <==>
            || Occurs("aiza", text) || Occurs("sk-", text) || Occurs("ya29.", text) || Occurs("akia", text)
            || Occurs("api_key=", text) || Occurs("api-key=", text)
            || Occurs("authorization: bearer", text) || Occurs("bearer ", text)
    ensures Marked(text, HOME_MARKS) <==>
            Occurs("/users/", text) || Occurs("/home/", text) || Occurs(":\\users\\", text)
  {
    var keys, homes := KEY_MARKS, HOME_MARKS;
    assert keys[0] == "aiza" && keys[1] == "sk-" && keys[2] == "ya29." && keys[3] == "akia";
    assert keys[4] == "api_key=" && keys[5] == "api-key=" && keys[6] == "authorization: bearer" && keys[7] == "bearer ";
    assert homes[0] == "/users/" && homes[1] == "/home/" && homes[2] == ":\\users\\";
    hide Occurs;
  }

  ghost predicate AnyKeyHeader(text: string) { exists i: nat :: KeyHeaderAt(text, i) }

  /** The category is that of the first kind of finding, in the order of the checks. */
  ghost predicate Explains(value: string, c: Category) {
    var lower := Lower(value);
    && (c == ApiKey <==> Marked(lower, KEY_MARKS))
    && (c.UploadHeader? ==> Occurs("x-goog-upload", lower))
    && (Occurs("x-goog-upload", lower) ==> c == ApiKey || c == UploadHeader)
    && (c.PrivateKey? ==> AnyKeyHeader(lower))
    && (AnyKeyHeader(lower) ==> c == ApiKey || c == UploadHeader || c == PrivateKey)
    && (c.HomePath? ==> Marked(lower, HOME_MARKS))
    && (Marked(lower, HOME_MARKS) ==> !c.UrlCredential? && !c.UploadUrl?)
    && (c.UrlCredential? || c.UploadUrl? ==> exists k: nat, i: nat :: FirstOffence(value, k, i, c))
  }

  /** `scan_text`: a text passes exactly when nothing objectionable stands anywhere in it,
      in any letter case. */
  method ScanText(value: string) returns (r: Result<(), Category>)
    ensures r.Ok? <==> && !Marked(Lower(value), KEY_MARKS)
                       && !Occurs("x-goog-upload", Lower(value))
                       && !AnyKeyHeader(Lower(value))
                       && !Marked(Lower(value), HOME_MARKS)
                       && Clean(value)
    ensures r.Err? ==> Explains(value, r.error)
  {
    hide Occurs, Lower, KeyHeaderAt, Clean, KEY_MARKS, HOME_MARKS, FirstOffence, Marked;
    var lower := Lower(value);
    var marked := ContainsAny(lower, KEY_MARKS);
    if marked {
      return Err(ApiKey);
    }
    ContainsIsOccurs(lower, "x-goog-upload");
    if Contains(lower, "x-goog-upload") {
      return Err(UploadHeader);
    }
    var armored := ContainsArmoredPrivateKey(lower);
    if armored {
      return Err(PrivateKey);
    }
    marked := ContainsAny(lower, HOME_MARKS);
    if marked {
      return Err(HomePath);
    }
    r := ScanUrls(value);
    if r.Err? {
      UrlErrors(value, r.error);
    }
  }

  lemma UrlErrors(value: string, c: Category)
    requires exists k: nat, i: nat :: FirstOffence(value, k, i, c)
    ensures c == UrlCredential || c == UploadUrl
  {
  }
}
