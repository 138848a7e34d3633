/** The frozen matrix, its '|'-joined string keys, and its validation
    (crates/spike-contracts/src/matrix.rs). */
module MatrixKeys {
  import opened Prelude
  import opened Proofs

  datatype RequiredEvidence = RequiredEvidence(id: SpikeId, target: TargetId, session: Option<string>,
                                               backend: Option<string>)

  datatype MatrixError =
    | Empty
    | EmptyQualifier
    | Duplicate
    | MissingRequiredEntries(keys: set<string>)
    | UnsupportedRequiredEntries(keys: set<string>)
    | CanonicalOrder

  const MACOS_VT: seq<RequiredEvidence> := [
    RequiredEvidence(Preview, "macos-arm64-vt", Some("aqua"), None),
    RequiredEvidence(Media, "macos-arm64-vt", None, Some("videotoolbox")),
    RequiredEvidence(Media, "macos-arm64-vt", None, Some("cpu-fallback")),
    RequiredEvidence(Platform, "macos-arm64-vt", Some("aqua"), None),
    RequiredEvidence(Gemini, "macos-arm64-vt", None, None),
    RequiredEvidence(Distribution, "macos-arm64-vt", None, None)]

  const WINDOWS_MF: seq<RequiredEvidence> := [
    RequiredEvidence(Preview, "windows-x64-mf", Some("windows"), None),
    RequiredEvidence(Media, "windows-x64-mf", None, Some("d3d11va-mf")),
    RequiredEvidence(Media, "windows-x64-mf", None, Some("cpu-fallback")),
    RequiredEvidence(Platform, "windows-x64-mf", Some("windows"), None),
    RequiredEvidence(Gemini, "windows-x64-mf", None, None),
    RequiredEvidence(Distribution, "windows-x64-mf", None, None)]

  const WINDOWS_NVIDIA: seq<RequiredEvidence> := [
    RequiredEvidence(Preview, "windows-x64-nvidia", Some("windows"), None),
    RequiredEvidence(Media, "windows-x64-nvidia", None, Some("nvenc-nvdec")),
    RequiredEvidence(Media, "windows-x64-nvidia", None, Some("cpu-fallback")),
    RequiredEvidence(Platform, "windows-x64-nvidia", Some("windows"), None),
    RequiredEvidence(Gemini, "windows-x64-nvidia", None, None)]

  const LINUX_WAYLAND: seq<RequiredEvidence> := [
    RequiredEvidence(Preview, "linux-x64-vaapi-wayland", Some("wayland"), None),
    RequiredEvidence(Media, "linux-x64-vaapi-wayland", None, Some("vaapi")),
    RequiredEvidence(Media, "linux-x64-vaapi-wayland", None, Some("cpu-fallback")),
    RequiredEvidence(Platform, "linux-x64-vaapi-wayland", Some("wayland"), None),
    RequiredEvidence(Gemini, "linux-x64-vaapi-wayland", None, None),
    RequiredEvidence(Distribution, "linux-x64-vaapi-wayland", None, None)]

  const LINUX_X11: seq<RequiredEvidence> := [
    RequiredEvidence(Preview, "linux-x64-vaapi-x11", Some("x11"), None),
    RequiredEvidence(Media, "linux-x64-vaapi-x11", None, Some("vaapi")),
    RequiredEvidence(Media, "linux-x64-vaapi-x11", None, Some("cpu-fallback")),
    RequiredEvidence(Platform, "linux-x64-vaapi-x11", Some("x11"), None),
    RequiredEvidence(Gemini, "linux-x64-vaapi-x11", None, None)]

  const LINUX_NVIDIA: seq<RequiredEvidence> := [
    RequiredEvidence(Preview, "linux-x64-nvidia", None, None),
    RequiredEvidence(Media, "linux-x64-nvidia", None, Some("nvenc-nvdec")),
    RequiredEvidence(Media, "linux-x64-nvidia", None, Some("cpu-fallback")),
    RequiredEvidence(Platform, "linux-x64-nvidia", None, None),
    RequiredEvidence(Gemini, "linux-x64-nvidia", None, None)]

  /** `CANONICAL_REQUIRED`: the 33 rows, target by target. */
  const CANONICAL: seq<RequiredEvidence> :=
    MACOS_VT + WINDOWS_MF + WINDOWS_NVIDIA + LINUX_WAYLAND + LINUX_X11 + LINUX_NVIDIA

  // ---- the matrix, row by row ---------------------------------------------------

  /** The session a target is measured in, and its hardware. */
  function SessionOf(target: TargetId): Option<string> {
    if target == "macos-arm64-vt" then Some("aqua")
    else if target == "windows-x64-mf" || target == "windows-x64-nvidia" then Some("windows")
    else if target == "linux-x64-vaapi-wayland" then Some("wayland")
    else if target == "linux-x64-vaapi-x11" then Some("x11")
    else None
  }

  function HardwareOf(target: TargetId): string {
    if target == "macos-arm64-vt" then "videotoolbox"
    else if target == "windows-x64-mf" then "d3d11va-mf"
    else if target == "windows-x64-nvidia" || target == "linux-x64-nvidia" then "nvenc-nvdec"
    else "vaapi"
  }

  /** Every target has a preview and a platform row in its session, media rows for its hardware
      and for the CPU, and an upload row; the three that are shipped have a release row. */
  predicate Wanted(row: RequiredEvidence) {
    match row.id
    case Preview => row.session == SessionOf(row.target) && row.backend == None
    case Platform => row.session == SessionOf(row.target) && row.backend == None
    case Media => row.session == None && row.backend in {Some(HardwareOf(row.target)), Some("cpu-fallback")}
    case Gemini => row.session == None && row.backend == None
    case Distribution =>
      && row.session == None && row.backend == None
      && row.target in {"macos-arm64-vt", "windows-x64-mf", "linux-x64-vaapi-wayland"}
  }

  /** The rows of the matrix are these and no others. */
  lemma MatrixIsWanted(row: RequiredEvidence)
    ensures row in CANONICAL <==> Wanted(row)
  {
    MacosRows(row);
    WindowsRows(row);
    WindowsNvidiaRows(row);
    WaylandRows(row);
    X11Rows(row);
    LinuxNvidiaRows(row);
    TargetIsOneOf(row.target);
    hide Wanted, MACOS_VT, WINDOWS_MF, WINDOWS_NVIDIA, LINUX_WAYLAND, LINUX_X11, LINUX_NVIDIA;
  }

  lemma TargetIsOneOf(target: TargetId)
    ensures || target == "macos-arm64-vt" || target == "windows-x64-mf" || target == "windows-x64-nvidia"
            || target == "linux-x64-vaapi-wayland" || target == "linux-x64-vaapi-x11" || target == "linux-x64-nvidia"
  {
  }

  /** Length and last character tell the targets apart. */
  lemma TargetsDiffer()
    ensures |"macos-arm64-vt"| == 14 && |"windows-x64-mf"| == 14 && "macos-arm64-vt"[0] != "windows-x64-mf"[0]
    ensures |"windows-x64-nvidia"| == 18 && |"linux-x64-vaapi-wayland"| == 23
    ensures |"linux-x64-vaapi-x11"| == 19 && |"linux-x64-nvidia"| == 16
  {
  }

  lemma MacosRows(row: RequiredEvidence)
    ensures row in MACOS_VT <==> row.target == "macos-arm64-vt" && Wanted(row)
  {
    TargetsDiffer();
    var rows := MACOS_VT;
    assert rows[0] in rows && rows[1] in rows && rows[2] in rows;
    assert rows[3] in rows && rows[4] in rows && rows[5] in rows;
  }

  lemma WindowsRows(row: RequiredEvidence)
    ensures row in WINDOWS_MF <==> row.target == "windows-x64-mf" && Wanted(row)
  {
    TargetsDiffer();
    var rows := WINDOWS_MF;
    assert rows[0] in rows && rows[1] in rows && rows[2] in rows;
    assert rows[3] in rows && rows[4] in rows && rows[5] in rows;
  }

  lemma WindowsNvidiaRows(row: RequiredEvidence)
    ensures row in WINDOWS_NVIDIA <==> row.target == "windows-x64-nvidia" && Wanted(row)
  {
    TargetsDiffer();
    var rows := WINDOWS_NVIDIA;
    assert rows[0] in rows && rows[1] in rows && rows[2] in rows && rows[3] in rows && rows[4] in rows;
  }

  lemma WaylandRows(row: RequiredEvidence)
    ensures row in LINUX_WAYLAND <==> row.target == "linux-x64-vaapi-wayland" && Wanted(row)
  {
    TargetsDiffer();
    var rows := LINUX_WAYLAND;
    assert rows[0] in rows && rows[1] in rows && rows[2] in rows;
    assert rows[3] in rows && rows[4] in rows && rows[5] in rows;
  }

  lemma X11Rows(row: RequiredEvidence)
    ensures row in LINUX_X11 <==> row.target == "linux-x64-vaapi-x11" && Wanted(row)
  {
    TargetsDiffer();
    var rows := LINUX_X11;
    assert rows[0] in rows && rows[1] in rows && rows[2] in rows && rows[3] in rows && rows[4] in rows;
  }

  lemma LinuxNvidiaRows(row: RequiredEvidence)
    ensures row in LINUX_NVIDIA <==> row.target == "linux-x64-nvidia" && Wanted(row)
  {
    TargetsDiffer();
    var rows := LINUX_NVIDIA;
    assert rows[0] in rows && rows[1] in rows && rows[2] in rows && rows[3] in rows && rows[4] in rows;
  }

  // ---- keys -------------------------------------------------------------------

  function SpikeIdName(id: SpikeId): string {
    match id
    case Preview => "preview"
    case Media => "media"
    case Gemini => "gemini"
    case Platform => "platform"
    case Distribution => "distribution"
  }

  function Qualifiers(row: RequiredEvidence): string {
    row.session.GetOr("") + ("|" + row.backend.GetOr(""))
  }

  function RequiredKey(row: RequiredEvidence): string {
    SpikeIdName(row.id) + ("|" + (row.target + ("|" + Qualifiers(row))))
  }

  /** The key spelled out. */
  lemma KeyIsText(row: RequiredEvidence)
    ensures var name := if row.id == Preview then "preview" else if row.id == Media then "media"
                        else if row.id == Gemini then "gemini" else if row.id == Platform then "platform"
                        else "distribution";
            var session, backend := row.session.GetOr(""), row.backend.GetOr("");
            RequiredKey(row) == name + ("|" + (row.target + ("|" + (session + ("|" + backend)))))
  {
  }

  /** The qualifier check of `validate`: absent is written as absent, not as empty. */
  predicate CleanQualifiers(row: RequiredEvidence) {
    row.session != Some("") && row.backend != Some("")
  }

  predicate NoBar(text: string) { '|' !in text }

  predicate QualifiersHaveNoBar(row: RequiredEvidence) {
    NoBar(row.session.GetOr("")) && NoBar(row.backend.GetOr(""))
  }

  /** Splitting at the first bar is unambiguous. */
  lemma FirstBar(a: string, x: string, b: string, y: string)
    requires NoBar(a) && NoBar(b)
    requires a + ("|" + x) == b + ("|" + y)
    ensures a == b && x == y
  {
    var whole := a + ("|" + x);
    assert whole[|a|] == '|' && whole[|b|] == '|';
    assert forall k :: 0 <= k < |a| || 0 <= k < |b| ==> whole[k] != '|';
    assert a == whole[..|a|] && b == whole[..|b|];
    assert x == whole[|a| + 1..] && y == whole[|b| + 1..];
  }

  /** So is splitting at the last one. */
  lemma LastBar(x: string, a: string, y: string, b: string)
    requires NoBar(a) && NoBar(b)
    requires x + ("|" + a) == y + ("|" + b)
    ensures a == b && x == y
  {
    var whole := x + ("|" + a);
    assert whole[|x|] == '|' && whole[|y|] == '|';
    assert forall k :: |x| < k < |whole| || |y| < k < |whole| ==> whole[k] != '|';
    assert x == whole[..|x|] && y == whole[..|y|];
    assert a == whole[|x| + 1..] && b == whole[|y| + 1..];
  }

  /** A text with a single bar splits in one way, whatever the other side looks like. */
  lemma OnlyBar(a: string, x: string, b: string, y: string)
    requires NoBar(a) && NoBar(x)
    requires a + ("|" + x) == b + ("|" + y)
    ensures a == b && x == y
  {
    var whole := a + ("|" + x);
    assert forall k :: 0 <= k < |whole| && k != |a| ==> whole[k] != '|';
    assert whole[|b|] == '|';
    assert a == whole[..|a|] && b == whole[..|b|];
    assert x == whole[|a| + 1..] && y == whole[|b| + 1..];
  }

  lemma NamesHaveNoBar(id: SpikeId, target: TargetId)
    ensures NoBar(SpikeIdName(id)) && NoBar(target)
  {
    TargetHasNoBar(target);
    hide SUPPORTED_TARGETS;
  }

  lemma TargetHasNoBar(target: TargetId)
    ensures NoBar(target)
  {
    hide NoBar;
    var i :| 0 <= i < |SUPPORTED_TARGETS| && SUPPORTED_TARGETS[i] == target;
    TargetsHaveNoBar(i);
  }

  lemma TargetsHaveNoBar(i: nat)
    requires i < |SUPPORTED_TARGETS|
    ensures NoBar(SUPPORTED_TARGETS[i])
  {
    assert SUPPORTED_TARGETS[0] == "macos-arm64-vt";
  }

  lemma SpikeIdNamesDiffer(a: SpikeId, b: SpikeId)
    ensures SpikeIdName(a) == SpikeIdName(b) ==> a == b
  {
    assert |SpikeIdName(Preview)| == 7 && |SpikeIdName(Media)| == 5 && |SpikeIdName(Gemini)| == 6;
    assert |SpikeIdName(Platform)| == 8 && |SpikeIdName(Distribution)| == 12;
  }

  /** Exactly how much of a row its key determines. */
  lemma KeyDetermines(r: RequiredEvidence, q: RequiredEvidence)
    ensures RequiredKey(r) == RequiredKey(q) <==> r.id == q.id && r.target == q.target && Qualifiers(r) == Qualifiers(q)
  {
    if RequiredKey(r) == RequiredKey(q) {
      NamesHaveNoBar(r.id, r.target);
      NamesHaveNoBar(q.id, q.target);
      FirstBar(SpikeIdName(r.id), r.target + ("|" + Qualifiers(r)), SpikeIdName(q.id),
               q.target + ("|" + Qualifiers(q)));
      FirstBar(r.target, Qualifiers(r), q.target, Qualifiers(q));
      SpikeIdNamesDiffer(r.id, q.id);
    }
  }

  /** A row without a bar in its qualifiers is the only clean row with its key. */
  lemma BarlessKeyIsUnique(r: RequiredEvidence, q: RequiredEvidence)
    requires CleanQualifiers(r) && CleanQualifiers(q) && QualifiersHaveNoBar(r)
    requires RequiredKey(r) == RequiredKey(q)
    ensures r == q
  {
    KeyDetermines(r, q);
    OnlyBar(r.session.GetOr(""), r.backend.GetOr(""), q.session.GetOr(""), q.backend.GetOr(""));
  }

  function FirstIndex(c: char, text: string): (i: nat)
    ensures i <= |text| && c !in text[..i]
    ensures i < |text| ==> text[i] == c
  {
    if text == [] || text[0] == c then 0
    else
      var i := 1 + FirstIndex(c, text[1..]);
      assert text[..i] == [text[0]] + text[1..][..i - 1];
      i
  }

  function Optional(text: string): Option<string> {
    if text == "" then None else Some(text)
  }

  /** Another clean row with the same key, when some qualifier contains a bar. */
  function Impostor(r: RequiredEvidence): (q: RequiredEvidence)
    requires CleanQualifiers(r) && !QualifiersHaveNoBar(r)
    ensures q != r && CleanQualifiers(q) && RequiredKey(q) == RequiredKey(r)
  {
    var s, b := r.session.GetOr(""), r.backend.GetOr("");
    if '|' in s then
      var i := FirstIndex('|', s);
      var q := RequiredEvidence(r.id, r.target, Optional(s[..i]), Some(s[i + 1..] + ("|" + b)));
      assert Qualifiers(q) == Qualifiers(r);
      q
    else
      var i := FirstIndex('|', b);
      var q := RequiredEvidence(r.id, r.target, Some(s + ("|" + b[..i])), Optional(b[i + 1..]));
      assert Qualifiers(q) == Qualifiers(r);
      q
  }

  /** Keys are not injective on all rows that pass the qualifier check: a row is
      identified by its key exactly when neither qualifier contains a bar. */
  lemma KeyIdentifiesRowExactly(r: RequiredEvidence)
    requires CleanQualifiers(r)
    ensures QualifiersHaveNoBar(r) <==>
            forall q: RequiredEvidence {:trigger RequiredKey(q)} ::
              CleanQualifiers(q) && RequiredKey(q) == RequiredKey(r) ==> q == r
  {
    if QualifiersHaveNoBar(r) {
      forall q: RequiredEvidence | CleanQualifiers(q) && RequiredKey(q) == RequiredKey(r) ensures q == r {
        BarlessKeyIsUnique(r, q);
      }
    } else {
      var q := Impostor(r);
      assert RequiredKey(q) == RequiredKey(r);
    }
  }

  /** Two clean rows that share a key. */
  lemma CollidingRows()
    ensures var r := RequiredEvidence(Preview, "macos-arm64-vt", Some("a|b"), None);
            var q := RequiredEvidence(Preview, "macos-arm64-vt", Some("a"), Some("b|"));
            CleanQualifiers(r) && CleanQualifiers(q) && r != q && RequiredKey(r) == RequiredKey(q)
  {
    var r := RequiredEvidence(Preview, "macos-arm64-vt", Some("a|b"), None);
    var q := RequiredEvidence(Preview, "macos-arm64-vt", Some("a"), Some("b|"));
    assert Qualifiers(r) == "a|b|" == Qualifiers(q);
    assert r.session != q.session;
  }

  // ---- validation -------------------------------------------------------------

  function Keys(rows: seq<RequiredEvidence>): seq<string> {
    seq(|rows|, i requires 0 <= i < |rows| => RequiredKey(rows[i]))
  }

  function KeySet(rows: seq<RequiredEvidence>): set<string> {
    set key | key in Keys(rows)
  }

  /** The first entry, in order, with an empty qualifier or seen before. */
  function EntryFault(rows: seq<RequiredEvidence>, seen: set<RequiredEvidence>): Option<MatrixError>
    decreases |rows|
  {
    if rows == [] then None
    else if !CleanQualifiers(rows[0]) then Some(EmptyQualifier)
    else if rows[0] in seen then Some(Duplicate)
    else EntryFault(rows[1..], seen + {rows[0]})
  }

  function ValidateVerdict(rows: seq<RequiredEvidence>): Result<(), MatrixError> {
    if rows == [] then Err(Empty)
    else if EntryFault(rows, {}).Some? then Err(EntryFault(rows, {}).value)
    else if KeySet(CANONICAL) - KeySet(rows) != {} then Err(MissingRequiredEntries(KeySet(CANONICAL) - KeySet(rows)))
    else if KeySet(rows) - KeySet(CANONICAL) != {} then
      Err(UnsupportedRequiredEntries(KeySet(rows) - KeySet(CANONICAL)))
    else if Keys(rows) != Keys(CANONICAL) then Err(CanonicalOrder)
    else Ok(())
  }

  /** `PhaseZeroMatrix::validate`. */
  method Validate(required: seq<RequiredEvidence>) returns (r: Result<(), MatrixError>)
    ensures r == ValidateVerdict(required)
  {
    hide CleanQualifiers, RequiredKey;
    if required == [] {
      return Err(Empty);
    }
    var entries: set<RequiredEvidence> := {};
    for i := 0 to |required|
      invariant EntryFault(required, {}) == EntryFault(required[i..], entries)
    {
      var evidence := required[i];
      assert required[i..][1..] == required[i + 1..];
      if !CleanQualifiers(evidence) {
        return Err(EmptyQualifier);
      }
      if evidence in entries {
        return Err(Duplicate);
      }
      entries := entries + {evidence};
    }
    var expected := CollectKeys(CANONICAL);
    var actual := CollectKeys(required);
    var expectedSet := set key | key in expected;
    var actualSet := set key | key in actual;
    var missing := expectedSet - actualSet;
    if missing != {} {
      return Err(MissingRequiredEntries(missing));
    }
    var unsupported := actualSet - expectedSet;
    if unsupported != {} {
      return Err(UnsupportedRequiredEntries(unsupported));
    }
    if actual != expected {
      return Err(CanonicalOrder);
    }
    return Ok(());
  }

  method CollectKeys(rows: seq<RequiredEvidence>) returns (keys: seq<string>)
    ensures keys == Keys(rows)
  {
    hide RequiredKey;
    keys := [];
    for i := 0 to |rows|
      invariant keys == Keys(rows)[..i]
    {
      keys := keys + [RequiredKey(rows[i])];
    }
  }

  // ---- the canonical rows -----------------------------------------------------

  function TargetIndex(target: TargetId): nat {
    if |target| == 14 then (if target[0] == 'm' then 0 else 1)
    else if |target| == 18 then 2
    else if |target| == 23 then 3
    else if |target| == 19 then 4
    else 5
  }

  /** A number that tells the canonical rows apart. */
  function Ordinal(row: RequiredEvidence): nat {
    TargetIndex(row.target) * 6 +
    match row.id
    case Preview => 0
    case Media => if row.backend.Some? && row.backend.value != "" && row.backend.value[0] == 'c' then 2 else 1
    case Platform => 3
    case Gemini => 4
    case Distribution => 5
  }

  lemma OrdinalsMacosVt(i: nat)
    requires i < |MACOS_VT|
    ensures Ordinal(MACOS_VT[i]) == 0 + i
    ensures CleanQualifiers(MACOS_VT[i]) && QualifiersHaveNoBar(MACOS_VT[i])
  {
  }

  lemma OrdinalsWindowsMf(i: nat)
    requires i < |WINDOWS_MF|
    ensures Ordinal(WINDOWS_MF[i]) == 6 + i
    ensures CleanQualifiers(WINDOWS_MF[i]) && QualifiersHaveNoBar(WINDOWS_MF[i])
  {
  }

  lemma OrdinalsWindowsNvidia(i: nat)
    requires i < |WINDOWS_NVIDIA|
    ensures Ordinal(WINDOWS_NVIDIA[i]) == 12 + i
    ensures CleanQualifiers(WINDOWS_NVIDIA[i]) && QualifiersHaveNoBar(WINDOWS_NVIDIA[i])
  {
  }

  lemma OrdinalsLinuxWayland(i: nat)
    requires i < |LINUX_WAYLAND|
    ensures Ordinal(LINUX_WAYLAND[i]) == 18 + i
    ensures CleanQualifiers(LINUX_WAYLAND[i]) && QualifiersHaveNoBar(LINUX_WAYLAND[i])
  {
  }

  lemma OrdinalsLinuxX11(i: nat)
    requires i < |LINUX_X11|
    ensures Ordinal(LINUX_X11[i]) == 24 + i
    ensures CleanQualifiers(LINUX_X11[i]) && QualifiersHaveNoBar(LINUX_X11[i])
  {
  }

  lemma OrdinalsLinuxNvidia(i: nat)
    requires i < |LINUX_NVIDIA|
    ensures Ordinal(LINUX_NVIDIA[i]) == 30 + i
    ensures CleanQualifiers(LINUX_NVIDIA[i]) && QualifiersHaveNoBar(LINUX_NVIDIA[i])
  {
  }

  /** The canonical rows are in strictly increasing order, clean and without bars. */
  lemma CanonicalOrdinals(i: nat)
    requires i < |CANONICAL|
    ensures Ordinal(CANONICAL[i]) == if i < 17 then i else if i < 28 then i + 1 else i + 2
    ensures CleanQualifiers(CANONICAL[i]) && QualifiersHaveNoBar(CANONICAL[i])
  {
    hide Ordinal, CleanQualifiers, QualifiersHaveNoBar;
    if i < 6 { OrdinalsMacosVt(i); }
    else if i < 12 { OrdinalsWindowsMf(i - 6); }
    else if i < 17 { OrdinalsWindowsNvidia(i - 12); }
    else if i < 23 { OrdinalsLinuxWayland(i - 17); }
    else if i < 28 { OrdinalsLinuxX11(i - 23); }
    else { OrdinalsLinuxNvidia(i - 28); }
  }

  lemma CanonicalIsClean()
    ensures forall row | row in CANONICAL :: CleanQualifiers(row) && QualifiersHaveNoBar(row)
  {
    hide CleanQualifiers, QualifiersHaveNoBar, Ordinal;
    forall row | row in CANONICAL ensures CleanQualifiers(row) && QualifiersHaveNoBar(row) {
      var i :| 0 <= i < |CANONICAL| && CANONICAL[i] == row;
      CanonicalOrdinals(i);
    }
  }

  ghost predicate Increasing(rows: seq<RequiredEvidence>) {
    forall i, j :: 0 <= i < j < |rows| ==> Ordinal(rows[i]) < Ordinal(rows[j])
  }

  lemma CanonicalIsIncreasing()
    ensures Increasing(CANONICAL)
  {
    hide Ordinal, CleanQualifiers, QualifiersHaveNoBar;
    forall i, j | 0 <= i < j < |CANONICAL| ensures Ordinal(CANONICAL[i]) < Ordinal(CANONICAL[j]) {
      CanonicalOrdinals(i);
      CanonicalOrdinals(j);
    }
  }

  lemma OrdinalIdentifies(rows: seq<RequiredEvidence>, r: RequiredEvidence, q: RequiredEvidence)
    requires Increasing(rows) && r in rows && q in rows && Ordinal(r) == Ordinal(q)
    ensures r == q
  {
    hide Ordinal;
    var i :| 0 <= i < |rows| && rows[i] == r;
    var j :| 0 <= j < |rows| && rows[j] == q;
  }

  lemma CanonicalRowsDiffer(i: nat, j: nat)
    requires i < j < |CANONICAL|
    ensures CANONICAL[i] != CANONICAL[j]
  {
    hide Ordinal;
    CanonicalIsIncreasing();
  }

  lemma CanonicalIsDistinct()
    ensures Distinct(CANONICAL)
  {
    hide CANONICAL;
    forall i, j | 0 <= i < j < |CANONICAL| ensures CANONICAL[i] != CANONICAL[j] { CanonicalRowsDiffer(i, j); }
  }

  /** On canonical rows a key is as good as the row. */
  lemma CanonicalKeysAreInjective(r: RequiredEvidence, q: RequiredEvidence)
    requires r in CANONICAL && q in CANONICAL && RequiredKey(r) == RequiredKey(q)
    ensures r == q
  {
    hide RequiredKey;
    CanonicalIsClean();
    BarlessKeyIsUnique(r, q);
  }

  lemma {:induction false} NoFaultMeansClean(rows: seq<RequiredEvidence>, seen: set<RequiredEvidence>)
    ensures EntryFault(rows, seen).None? <==>
            && (forall row :: row in rows ==> CleanQualifiers(row) && row !in seen)
            && Distinct(rows)
    decreases |rows|
  {
    hide CleanQualifiers, Distinct;
    if rows == [] {
      EmptyIsDistinct<RequiredEvidence>();
    } else {
      var head, tail := rows[0], rows[1..];
      NoFaultMeansClean(tail, seen + {head});
      assert rows == [head] + tail;
      ConsDistinct(head, tail);
      assert forall row :: row in rows <==> row == head || row in tail;
    }
  }

  lemma EmptyIsDistinct<T>()
    ensures Distinct<T>([])
  {
  }

  /** The string comparison of keys accepts exactly the canonical row sequence: no
      other row, order or number of rows can pass, although keys are not injective. */
  lemma ValidateAcceptsExactlyCanonical(rows: seq<RequiredEvidence>)
    ensures ValidateVerdict(rows).Ok? <==> rows == CANONICAL
  {
    hide RequiredKey, CleanQualifiers, QualifiersHaveNoBar;
    NoFaultMeansClean(rows, {});
    CanonicalIsClean();
    if ValidateVerdict(rows).Ok? {
      assert |Keys(rows)| == |Keys(CANONICAL)|;
      forall i | 0 <= i < |rows| ensures rows[i] == CANONICAL[i] {
        assert Keys(rows)[i] == Keys(CANONICAL)[i];
        assert CANONICAL[i] in CANONICAL;
        BarlessKeyIsUnique(CANONICAL[i], rows[i]);
      }
    }
    if rows == CANONICAL {
      forall i, j | 0 <= i < j < |rows| ensures rows[i] != rows[j] {
        CanonicalRowsDiffer(i, j);
      }
    }
  }

  /** What is wrong with an entry: an empty qualifier, or else that it stands before already. */
  function EntryFaultAt(rows: seq<RequiredEvidence>, i: nat): Option<MatrixError>
    requires i < |rows|
  {
    if rows[i].session == Some("") || rows[i].backend == Some("") then Some(EmptyQualifier)
    else if rows[i] in rows[..i] then Some(Duplicate)
    else None
  }

  /** The error is that of the first entry with a fault. */
  lemma FirstEntryFaultIsReported(rows: seq<RequiredEvidence>, i: nat)
    requires i < |rows| && EntryFaultAt(rows, i).Some? && forall j :: 0 <= j < i ==> EntryFaultAt(rows, j) == None
    ensures ValidateVerdict(rows) == Err(EntryFaultAt(rows, i).value)
  {
    forall j | 0 <= j < i ensures CleanQualifiers(rows[j]) && rows[j] !in rows[..j] {
      assert EntryFaultAt(rows, j) == None;
    }
    EntryFaultIs(rows, {}, i);
    hide EntryFault;
  }

  lemma {:induction false} EntryFaultIs(rows: seq<RequiredEvidence>, seen: set<RequiredEvidence>, i: nat)
    requires i < |rows|
    requires forall j :: 0 <= j < i ==> CleanQualifiers(rows[j]) && rows[j] !in seen && rows[j] !in rows[..j]
    requires !CleanQualifiers(rows[i]) || rows[i] in seen || rows[i] in rows[..i]
    ensures EntryFault(rows, seen) == Some(if CleanQualifiers(rows[i]) then Duplicate else EmptyQualifier)
    decreases i
  {
    hide CleanQualifiers;
    if i > 0 {
      var tail, later := rows[1..], seen + {rows[0]};
      forall j | 0 <= j < i - 1 ensures CleanQualifiers(tail[j]) && tail[j] !in later && tail[j] !in tail[..j] {
        assert tail[j] == rows[j + 1] && rows[..j + 1] == [rows[0]] + tail[..j];
      }
      assert tail[i - 1] == rows[i] && rows[..i] == [rows[0]] + tail[..i - 1];
      EntryFaultIs(tail, later, i - 1);
    }
  }
}
