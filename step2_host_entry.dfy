/**
 * The host-name entry screen of the install wizard: splitting the typed host
 * list into names, validating them, the error messages that gate the Next
 * button, the host dictionary handed to the next screen, and the expansion of
 * `name[NN-MM]` ranges.
 */
module WizardStep2 {
  import opened Wrappers
  import opened WizardHosts

  // ----- JavaScript string primitives the controller relies on -----

  /** The characters matched by the regular-expression class `\s` and removed
      by `String.prototype.trim` (white space and line terminators). */
  predicate IsWhiteSpace(c: char) {
    || c == ' ' || c == '\t' || c == '\n' || c == '\U{B}' || c == '\U{C}' || c == '\r'
    || c == '\U{A0}' || c == '\U{1680}' || ('\U{2000}' <= c <= '\U{200A}')
    || c == '\U{2028}' || c == '\U{2029}' || c == '\U{202F}' || c == '\U{205F}'
    || c == '\U{3000}' || c == '\U{FEFF}'
  }

  predicate NoWhiteSpace(s: string) {
    forall i :: 0 <= i < |s| ==> !IsWhiteSpace(s[i])
  }

  function TrimEnd(s: string): (r: string)
    ensures |r| <= |s| && r == s[..|r|]
    ensures forall i :: |r| <= i < |s| ==> IsWhiteSpace(s[i])
    ensures r == [] || !IsWhiteSpace(r[|r| - 1])
  {
    if |s| > 0 && IsWhiteSpace(s[|s| - 1]) then TrimEnd(s[..|s| - 1]) else s
  }

  /** `s.trim()`: the middle of `s` once the white space at both ends is gone
      (`WhiteSpaceRun(s)` characters at the front, all white space). */
  function Trim(s: string): (r: string)
    ensures WhiteSpaceRun(s) + |r| <= |s| && r == s[WhiteSpaceRun(s)..WhiteSpaceRun(s) + |r|]
    ensures forall k :: WhiteSpaceRun(s) + |r| <= k < |s| ==> IsWhiteSpace(s[k])
    ensures r == [] || (!IsWhiteSpace(r[0]) && !IsWhiteSpace(r[|r| - 1]))
  {
    var i := WhiteSpaceRun(s);
    var r := TrimEnd(s[i..]);
    assert r == s[i..][..|r|] == s[i..i + |r|];
    assert forall k :: i + |r| <= k < |s| ==> s[k] == s[i..][k - i];
    r
  }

  /** How many characters at the front of `s` are not white space. */
  function NonWhiteSpaceRun(s: string): (k: nat)
    ensures k <= |s|
    ensures forall i :: 0 <= i < k ==> !IsWhiteSpace(s[i])
    ensures k < |s| ==> IsWhiteSpace(s[k])
  {
    if |s| == 0 || IsWhiteSpace(s[0]) then 0 else 1 + NonWhiteSpaceRun(s[1..])
  }

  /** How many characters at the front of `s` are white space (what `\s+` eats). */
  function WhiteSpaceRun(s: string): (k: nat)
    ensures k <= |s|
    ensures forall i :: 0 <= i < k ==> IsWhiteSpace(s[i])
    ensures k < |s| ==> !IsWhiteSpace(s[k])
  {
    if |s| == 0 || !IsWhiteSpace(s[0]) then 0 else 1 + WhiteSpaceRun(s[1..])
  }

  /** `s.split(/\s+/g)`: the pieces between maximal runs of white space. A
      string without white space, the empty string included, is one piece. */
  function SplitOnWhiteSpace(s: string): (tokens: seq<string>)
    ensures |tokens| >= 1
    ensures forall i :: 0 <= i < |tokens| ==> NoWhiteSpace(tokens[i])
    decreases |s|
  {
    var k := NonWhiteSpaceRun(s);
    if k == |s| then [s]
    else
      var m := k + WhiteSpaceRun(s[k..]);
      [s[..k]] + SplitOnWhiteSpace(s[m..])
  }

  /** The white-space runs `s.split(/\s+/g)` cuts out, one between each
      two neighbouring pieces. */
  function WhiteSpaceGaps(s: string): seq<string>
    decreases |s|
  {
    var k := NonWhiteSpaceRun(s);
    if k == |s| then []
    else
      var m := k + WhiteSpaceRun(s[k..]);
      [s[k..m]] + WhiteSpaceGaps(s[m..])
  }

  /** The pieces with the gaps put back between them. */
  function Interleave(pieces: seq<string>, gaps: seq<string>): string
    requires |gaps| + 1 == |pieces|
  {
    if gaps == [] then pieces[0] else pieces[0] + gaps[0] + Interleave(pieces[1..], gaps[1..])
  }

  predicate AllWhiteSpace(s: string) {
    forall k :: 0 <= k < |s| ==> IsWhiteSpace(s[k])
  }

  /** Splitting loses nothing: between each two pieces lies a non-empty run
      of white space, and the pieces and these runs, in order, spell the
      text again. */
  lemma {:induction false} SplitRebuildsText(s: string)
    ensures |WhiteSpaceGaps(s)| + 1 == |SplitOnWhiteSpace(s)|
    ensures forall i :: 0 <= i < |WhiteSpaceGaps(s)| ==> WhiteSpaceGaps(s)[i] != [] && AllWhiteSpace(WhiteSpaceGaps(s)[i])
    ensures Interleave(SplitOnWhiteSpace(s), WhiteSpaceGaps(s)) == s
    decreases |s|
  {
    var k := NonWhiteSpaceRun(s);
    if k < |s| {
      var m := k + WhiteSpaceRun(s[k..]);
      SplitRebuildsText(s[m..]);
      RebuildStep(s, k, m);
      ThreeParts(s, k, m);
      GapsCons(s[k..m], WhiteSpaceGaps(s[m..]));
    } else {
      assert SplitOnWhiteSpace(s) == [s] && WhiteSpaceGaps(s) == [];
    }
  }

  lemma GapsCons(gap: string, gaps: seq<string>)
    requires gap != [] && AllWhiteSpace(gap)
    requires forall i :: 0 <= i < |gaps| ==> gaps[i] != [] && AllWhiteSpace(gaps[i])
    ensures forall i :: 0 <= i < |[gap] + gaps| ==> ([gap] + gaps)[i] != [] && AllWhiteSpace(([gap] + gaps)[i])
  {
  }

  lemma ThreeParts(s: string, k: nat, m: nat)
    requires k <= m <= |s|
    ensures s == s[..k] + s[k..m] + s[m..]
  {
  }

  /** One step of the rebuild: the first piece, the first gap (a non-empty
      run of white space), then the rest. */
  lemma RebuildStep(s: string, k: nat, m: nat)
    requires k == NonWhiteSpaceRun(s) < |s| && m == k + WhiteSpaceRun(s[k..])
    requires |WhiteSpaceGaps(s[m..])| + 1 == |SplitOnWhiteSpace(s[m..])|
    ensures SplitOnWhiteSpace(s) == [s[..k]] + SplitOnWhiteSpace(s[m..])
    ensures WhiteSpaceGaps(s) == [s[k..m]] + WhiteSpaceGaps(s[m..])
    ensures s[k..m] != [] && AllWhiteSpace(s[k..m])
    ensures Interleave(SplitOnWhiteSpace(s), WhiteSpaceGaps(s))
      == s[..k] + s[k..m] + Interleave(SplitOnWhiteSpace(s[m..]), WhiteSpaceGaps(s[m..]))
  {
    SplitStep(s, k, m);
    GapsStep(s, k, m);
    FirstGap(s, k, m);
    InterleaveFirst(s[..k], s[k..m], SplitOnWhiteSpace(s[m..]), WhiteSpaceGaps(s[m..]));
  }

  /** One step of the split: the first piece, then the pieces of the rest of the text. */
  lemma SplitStep(s: string, k: nat, m: nat)
    requires k == NonWhiteSpaceRun(s) < |s| && m == k + WhiteSpaceRun(s[k..])
    ensures SplitOnWhiteSpace(s) == [s[..k]] + SplitOnWhiteSpace(s[m..])
  {
  }

  /** One step of the gaps: the first gap, then the gaps of the rest of the text. */
  lemma GapsStep(s: string, k: nat, m: nat)
    requires k == NonWhiteSpaceRun(s) < |s| && m == k + WhiteSpaceRun(s[k..])
    ensures WhiteSpaceGaps(s) == [s[k..m]] + WhiteSpaceGaps(s[m..])
  {
  }

  /** The first gap is the white space right after the first piece: at least one character. */
  lemma FirstGap(s: string, k: nat, m: nat)
    requires k == NonWhiteSpaceRun(s) < |s| && m == k + WhiteSpaceRun(s[k..])
    ensures s[k..m] != [] && AllWhiteSpace(s[k..m])
  {
    assert s[k..][0] == s[k];
    forall j | 0 <= j < m - k ensures IsWhiteSpace(s[k..m][j]) {
      assert s[k..m][j] == s[k..][j];
    }
  }

  lemma InterleaveFirst(piece: string, gap: string, pieces: seq<string>, gaps: seq<string>)
    requires |gaps| + 1 == |pieces|
    ensures Interleave([piece] + pieces, [gap] + gaps) == piece + gap + Interleave(pieces, gaps)
  {
    assert ([piece] + pieces)[1..] == pieces && ([gap] + gaps)[1..] == gaps;
  }

  /** `tokens.join(sep)` */
  function Join(tokens: seq<string>, sep: string): string {
    if |tokens| == 0 then ""
    else if |tokens| == 1 then tokens[0]
    else tokens[0] + sep + Join(tokens[1..], sep)
  }

  /** The host names of the text typed into the box: `hostNames.trim().split(/\s+/)`. */
  function Tokens(hostNames: string): seq<string> {
    SplitOnWhiteSpace(Trim(hostNames))
  }

  lemma {:induction false} JoinStartsWithFirst(tokens: seq<string>, sep: string)
    requires |tokens| >= 1
    ensures |Join(tokens, sep)| >= |tokens[0]|
    ensures Join(tokens, sep)[..|tokens[0]|] == tokens[0]
  {
  }

  /** Splitting text that has no white space at either end gives non-empty names. */
  lemma {:induction false} SplitTrimmedHasNoEmptyToken(s: string)
    requires s != [] && !IsWhiteSpace(s[0]) && !IsWhiteSpace(s[|s| - 1])
    ensures forall i :: 0 <= i < |SplitOnWhiteSpace(s)| ==> SplitOnWhiteSpace(s)[i] != []
    decreases |s|
  {
    var k := NonWhiteSpaceRun(s);
    if k < |s| {
      var m := k + WhiteSpaceRun(s[k..]);
      assert m < |s|;
      assert s[m..][0] == s[m] == s[k..][m - k];
      SplitTrimmedHasNoEmptyToken(s[m..]);
    }
  }

  /** Round trip: names joined by single spaces split back into the same names. */
  lemma {:induction false} SplitJoinRoundTrip(tokens: seq<string>)
    requires |tokens| >= 1
    requires forall i :: 0 <= i < |tokens| ==> tokens[i] != [] && NoWhiteSpace(tokens[i])
    ensures SplitOnWhiteSpace(Join(tokens, " ")) == tokens
  {
    var s := Join(tokens, " ");
    var t := tokens[0];
    if |tokens| == 1 {
      assert NonWhiteSpaceRun(s) == |s|;
    } else {
      var rest := Join(tokens[1..], " ");
      assert s == t + " " + rest;
      JoinStartsWithFirst(tokens[1..], " ");
      assert tokens[1..][0] == tokens[1] && tokens[1] != [];
      assert rest[..|tokens[1]|] == tokens[1];
      assert rest[0] == rest[..|tokens[1]|][0];
      assert s[|t|] == ' ' && forall i :: 0 <= i < |t| ==> s[i] == t[i];
      assert NonWhiteSpaceRun(s) == |t|;
      assert s[|t|..] == " " + rest;
      assert !IsWhiteSpace(tokens[1][0]);
      assert !IsWhiteSpace(s[|t|..][1]) && IsWhiteSpace(s[|t|..][0]);
      assert WhiteSpaceRun(s[|t|..]) == 1;
      assert s[|t| + 1..] == rest;
      SplitJoinRoundTrip(tokens[1..]);
      assert s[..|t|] == t;
    }
  }

  // ----- validation and the errors that gate the Next button -----

  /** `isHostNameValid`: a name may not start or end with '-'. */
  predicate IsHostNameValid(hostName: string) {
    !(|hostName| > 0 && (hostName[0] == '-' || hostName[|hostName| - 1] == '-'))
  }

  predicate AllHostNamesValid(hostNames: seq<string>) {
    forall i :: 0 <= i < |hostNames| ==> IsHostNameValid(hostNames[i])
  }

  /** The error messages of the form (their I18n text is left out). */
  datatype FieldError = HostNamesRequired | HostNamesInvalid | SshKeyRequired

  /** `hostsError`: "required" wins over "invalid". */
  function HostNamesError(hasSubmitted: bool, hostNames: string): (error: Option<FieldError>)
    ensures error != Some(SshKeyRequired)
    ensures error == Some(HostNamesRequired) <==> hasSubmitted && Trim(hostNames) == ""
    ensures error == None <==> (!hasSubmitted || Trim(hostNames) != "") && AllHostNamesValid(Tokens(hostNames))
  {
    if hasSubmitted && Trim(hostNames) == "" then Some(HostNamesRequired)
    else if !AllHostNamesValid(Tokens(hostNames)) then Some(HostNamesInvalid)
    else None
  }

  /** `sshKeyError`: only when submitted, `manualInstall === false` and the key is blank.
      `manualInstall` is `None` while it is unset (`undefined`). */
  function SshKeyError(hasSubmitted: bool, manualInstall: Option<bool>, sshKey: string): (error: Option<FieldError>)
    ensures error == None || error == Some(SshKeyRequired)
    ensures error.Some? <==> hasSubmitted && manualInstall == Some(false) && Trim(sshKey) == ""
  {
    if hasSubmitted && manualInstall == Some(false) && Trim(sshKey) == "" then Some(SshKeyRequired)
    else None
  }

  /** `isSubmitDisabled`: truthy iff one of the two errors is set. */
  predicate SubmitDisabled(hasSubmitted: bool, hostNames: string, manualInstall: Option<bool>, sshKey: string) {
    HostNamesError(hasSubmitted, hostNames).Some? || SshKeyError(hasSubmitted, manualInstall, sshKey).Some?
  }

  /** `installType` */
  function InstallTypeOf(manualInstall: Option<bool>): (t: InstallType)
    ensures t == ManualDriven <==> manualInstall == Some(true)
  {
    if manualInstall == Some(true) then ManualDriven else AmbariDriven
  }

  /** Blank input splits into the one empty name, which is valid: it can only
      ever draw the "required" error, and only once the form was submitted. */
  lemma BlankHostListIsNeverInvalid(hasSubmitted: bool, hostNames: string)
    requires Trim(hostNames) == ""
    ensures Tokens(hostNames) == [""]
    ensures HostNamesError(hasSubmitted, hostNames) == if hasSubmitted then Some(HostNamesRequired) else None
  {
  }

  /** A submitted host list that draws no error is a non-empty list of
      non-empty names without white space, none starting or ending with '-'. */
  lemma AcceptedHostListIsUsable(hostNames: string)
    requires HostNamesError(true, hostNames) == None
    ensures var names := Tokens(hostNames);
      |names| >= 1 && forall i :: 0 <= i < |names| ==>
        names[i] != [] && NoWhiteSpace(names[i]) && IsHostNameValid(names[i])
  {
    SplitTrimmedHasNoEmptyToken(Trim(hostNames));
  }

  /** Before the first submit the only error the form can show is "invalid". */
  lemma UnsubmittedFormShowsOnlyInvalidNames(hostNames: string, manualInstall: Option<bool>, sshKey: string)
    ensures SshKeyError(false, manualInstall, sshKey) == None
    ensures SubmitDisabled(false, hostNames, manualInstall, sshKey) <==> !AllHostNamesValid(Tokens(hostNames))
  {
  }

  // ----- `patternExpression`: expanding `name[NN-MM]` -----

  predicate IsDigit(c: char) { '0' <= c <= '9' }

  predicate AllDigits(s: string) { forall i :: 0 <= i < |s| ==> IsDigit(s[i]) }

  /** The length of the run of digits starting at `i` (what `\d*` consumes there). */
  function DigitRun(s: string, i: nat): (n: nat)
    requires i <= |s|
    ensures i + n <= |s|
    ensures forall k :: i <= k < i + n ==> IsDigit(s[k])
    ensures i + n == |s| || !IsDigit(s[i + n])
    decreases |s| - i
  {
    if i < |s| && IsDigit(s[i]) then 1 + DigitRun(s, i + 1) else 0
  }

  /** Whether `/\[\d*\-\d*\]/` matches at position `p`, and where the match ends. */
  function RangeGroupAt(s: string, p: nat): (end: Option<nat>)
    requires p <= |s|
    ensures end.Some? ==> p < end.value <= |s| && s[p] == '[' && s[end.value - 1] == ']'
  {
    if p < |s| && s[p] == '[' then
      var a := p + 1 + DigitRun(s, p + 1);
      if a < |s| && s[a] == '-' then
        var b := a + 1 + DigitRun(s, a + 1);
        if b < |s| && s[b] == ']' then Some(b + 1) else None
      else None
    else None
  }

  /** The leftmost match of `/\[\d*\-\d*\]/` at or after `from`, as (start, end). */
  function FirstRangeGroup(s: string, from: nat): (m: Option<(nat, nat)>)
    requires from <= |s|
    ensures m.Some? ==> from <= m.value.0 < m.value.1 <= |s| && RangeGroupAt(s, m.value.0) == Some(m.value.1)
    decreases |s| - from
  {
    if from == |s| then None
    else if RangeGroupAt(s, from).Some? then Some((from, RangeGroupAt(s, from).value))
    else FirstRangeGroup(s, from + 1)
  }

  /** `FirstRangeGroup` finds the leftmost match: none starts before it, and
      when it finds none there is none at all. */
  lemma {:induction false} FirstRangeGroupIsLeftmost(s: string, from: nat)
    requires from <= |s|
    ensures var m := FirstRangeGroup(s, from);
      && (m.Some? ==> forall p :: from <= p < m.value.0 ==> RangeGroupAt(s, p).None?)
      && (m.None? ==> forall p :: from <= p <= |s| ==> RangeGroupAt(s, p).None?)
    decreases |s| - from
  {
    if from == |s| {
      assert RangeGroupAt(s, from).None?;
    } else if RangeGroupAt(s, from).None? {
      FirstRangeGroupIsLeftmost(s, from + 1);
      assert FirstRangeGroup(s, from) == FirstRangeGroup(s, from + 1);
    }
  }

  /** The index of the first `c` at or after `from`. */
  function IndexOf(s: string, c: char, from: nat): (i: Option<nat>)
    requires from <= |s|
    ensures i.Some? ==> from <= i.value < |s| && s[i.value] == c
    decreases |s| - from
  {
    if from == |s| then None else if s[from] == c then Some(from) else IndexOf(s, c, from + 1)
  }

  /** `a.match(re)[0].substr(1)`, where `re` is a `c` followed by digits:
      the digits right after the FIRST `c` of the whole token, wherever that
      is. Only used on tokens holding a range group, which always have both
      '[' and '-'. */
  function DigitsAfterFirst(a: string, c: char): (digits: string)
    ensures AllDigits(digits)
  {
    match IndexOf(a, c, 0)
    case None => ""
    case Some(i) => a[i + 1..i + 1 + DigitRun(a, i + 1)]
  }

  /** The number a string of decimal digits spells. */
  function DigitsValue(d: string): nat
    requires AllDigits(d)
  {
    if d == [] then 0 else 10 * DigitsValue(d[..|d| - 1]) + (d[|d| - 1] as int - '0' as int)
  }

  /** `parseInt(d)` on a string of digits: `NaN` (here `None`) when it is empty. */
  function ParseDigits(d: string): Option<nat>
    requires AllDigits(d)
  {
    if d == [] then None else Some(DigitsValue(d))
  }

  /** JavaScript's `String(n)` for a non-negative integer. */
  function NatToString(n: nat): (s: string)
    ensures s != [] && AllDigits(s)
    ensures |s| == 1 || s[0] != '0'
  {
    if n < 10 then [('0' as int + n) as char]
    else NatToString(n / 10) + [('0' as int + n % 10) as char]
  }

  lemma {:induction false} NatToStringRoundTrip(n: nat)
    ensures DigitsValue(NatToString(n)) == n
  {
    if n >= 10 {
      var s := NatToString(n);
      assert s[..|s| - 1] == NatToString(n / 10);
      NatToStringRoundTrip(n / 10);
    }
  }

  lemma NatToStringInjective(m: nat, n: nat)
    requires NatToString(m) == NatToString(n)
    ensures m == n
  {
    NatToStringRoundTrip(m);
    NatToStringRoundTrip(n);
  }

  /** The start and end numbers of a token's range, as the source reads them. */
  function RangeStart(a: string): string { DigitsAfterFirst(a, '[') }
  function RangeEnd(a: string): string { DigitsAfterFirst(a, '-') }

  /** `parseInt(start) <= parseInt(end) && parseInt(start) >= 0`; false when either is `NaN`. */
  predicate RangeAccepted(start: string, end: string)
    requires AllDigits(start) && AllDigits(end)
  {
    var lo := ParseDigits(start);
    var hi := ParseDigits(end);
    lo.Some? && hi.Some? && lo.value <= hi.value && lo.value >= 0
  }

  /** The token holds a range group and its range passes the range test. */
  predicate HasExpandableRange(a: string) {
    FirstRangeGroup(a, 0).Some? && RangeAccepted(RangeStart(a), RangeEnd(a))
  }

  /** One leading zero is kept when the start has more than one digit and begins with '0'. */
  function ZeroPrefix(start: string): string {
    if |start| > 1 && start[0] == '0' then "0" else ""
  }

  /** One name of a range: `prefix + i + suffix`. */
  function RangeName(prefix: string, suffix: string, n: nat): string {
    prefix + NatToString(n) + suffix
  }

  /** A range name keeps its prefix and suffix, with a digit next to each. */
  lemma RangeNameParts(prefix: string, suffix: string, n: nat)
    ensures var r := RangeName(prefix, suffix, n);
      && |r| > |prefix| + |suffix|
      && r[..|prefix|] == prefix && r[|r| - |suffix|..] == suffix
      && IsDigit(r[|prefix|]) && IsDigit(r[|r| - |suffix| - 1])
  {
    var d := NatToString(n);
    var r := RangeName(prefix, suffix, n);
    assert r[|prefix|] == d[0];
    assert r[|r| - |suffix| - 1] == d[|d| - 1];
  }

  /** Different numbers give different names. */
  lemma RangeNameInjective(prefix: string, suffix: string, m: nat, n: nat)
    requires RangeName(prefix, suffix, m) == RangeName(prefix, suffix, n)
    ensures m == n
  {
    var x, y := NatToString(m), NatToString(n);
    var r := RangeName(prefix, suffix, m);
    assert |x| == |y|;
    assert x == r[|prefix|..|prefix| + |x|];
    assert y == RangeName(prefix, suffix, n)[|prefix|..|prefix| + |y|];
    NatToStringInjective(m, n);
  }

  /** The names `prefix + i + suffix` for `i` from `lo` up to `hi`. */
  function RangeNames(prefix: string, suffix: string, lo: nat, hi: nat): seq<string>
    requires lo <= hi
  {
    seq(hi - lo + 1, k requires 0 <= k <= hi - lo => RangeName(prefix, suffix, lo + k))
  }

  /** A range's names are pairwise different. */
  lemma RangeNamesDistinct(prefix: string, suffix: string, lo: nat, hi: nat)
    requires lo <= hi
    ensures var names := RangeNames(prefix, suffix, lo, hi);
      forall j, k :: 0 <= j < k < |names| ==> names[j] != names[k]
  {
    var names := RangeNames(prefix, suffix, lo, hi);
    forall j, k | 0 <= j < k < |names| ensures names[j] != names[k] {
      if names[j] == names[k] {
        RangeNameInjective(prefix, suffix, lo + j, lo + k);
      }
    }
  }

  /** Every name of a range starts with the prefix and ends with the suffix. */
  lemma RangeNamesKeepAffixes(prefix: string, suffix: string, lo: nat, hi: nat)
    requires lo <= hi
    ensures var names := RangeNames(prefix, suffix, lo, hi);
      forall k :: 0 <= k < |names| ==>
        |names[k]| > |prefix| + |suffix| && names[k][..|prefix|] == prefix && names[k][|names[k]| - |suffix|..] == suffix
  {
    var names := RangeNames(prefix, suffix, lo, hi);
    forall k | 0 <= k < |names|
      ensures |names[k]| > |prefix| + |suffix| && names[k][..|prefix|] == prefix && names[k][|names[k]| - |suffix|..] == suffix
    {
      RangeNameParts(prefix, suffix, lo + k);
    }
  }

  /** A range's names are valid host names when the prefix does not start
      and the suffix does not end with '-': the number fills any empty side. */
  lemma RangeNamesValid(prefix: string, suffix: string, lo: nat, hi: nat)
    requires lo <= hi
    requires prefix == [] || prefix[0] != '-'
    requires suffix == [] || suffix[|suffix| - 1] != '-'
    ensures AllHostNamesValid(RangeNames(prefix, suffix, lo, hi))
  {
    var names := RangeNames(prefix, suffix, lo, hi);
    forall k | 0 <= k < |names| ensures IsHostNameValid(names[k]) {
      var n := names[k];
      RangeNameParts(prefix, suffix, lo + k);
      assert n[0] != '-' by {
        if prefix != [] { assert n[0] == n[..|prefix|][0]; }
      }
      assert n[|n| - 1] != '-' by {
        if suffix != [] { assert n[|n| - 1] == n[|n| - |suffix|..][|suffix| - 1]; }
      }
    }
  }

  /** The names one token stands for after `patternExpression`: itself when it
      has no range group, the range's names when the range is accepted, and
      nothing at all when it is not. */
  function ExpandToken(a: string): seq<string> {
    match FirstRangeGroup(a, 0)
    case None => [a]
    case Some((p, q)) =>
      var start := RangeStart(a);
      var end := RangeEnd(a);
      if RangeAccepted(start, end) then
        RangeNames(a[..p] + ZeroPrefix(start), a[q..], DigitsValue(start), DigitsValue(end))
      else []
  }

  function ExpandAll(tokens: seq<string>): seq<string> {
    if tokens == [] then [] else ExpandAll(tokens[..|tokens| - 1]) + ExpandToken(tokens[|tokens| - 1])
  }

  /** Expansion works token by token and keeps the tokens' order. */
  lemma {:induction false} ExpandAllAppend(a: seq<string>, b: seq<string>)
    ensures ExpandAll(a + b) == ExpandAll(a) + ExpandAll(b)
    decreases |b|
  {
    if b != [] {
      assert (a + b)[..|a + b| - 1] == a + b[..|b| - 1];
      ExpandAllAppend(a, b[..|b| - 1]);
    } else {
      assert a + b == a;
    }
  }

  /** Expanding one more token of a list appends that token's expansion. */
  lemma ExpandAllStep(tokens: seq<string>, k: nat)
    requires k < |tokens|
    ensures ExpandAll(tokens[..k + 1]) == ExpandAll(tokens[..k]) + ExpandToken(tokens[k])
  {
    assert tokens[..k + 1][..k] == tokens[..k];
  }

  /** Whether some token of the list holds an accepted range. */
  predicate AnyExpandable(tokens: seq<string>) {
    tokens != [] && (AnyExpandable(tokens[..|tokens| - 1]) || HasExpandableRange(tokens[|tokens| - 1]))
  }

  lemma {:induction false} AnyExpandableMeansSomeToken(tokens: seq<string>)
    ensures AnyExpandable(tokens) <==> exists i :: 0 <= i < |tokens| && HasExpandableRange(tokens[i])
  {
    if tokens != [] {
      var init := tokens[..|tokens| - 1];
      AnyExpandableMeansSomeToken(init);
      if exists i :: 0 <= i < |tokens| && HasExpandableRange(tokens[i]) {
        var i :| 0 <= i < |tokens| && HasExpandableRange(tokens[i]);
        if i < |init| { assert HasExpandableRange(init[i]); }
      }
      if AnyExpandable(init) {
        var i :| 0 <= i < |init| && HasExpandableRange(init[i]);
        assert HasExpandableRange(tokens[i]);
      }
    }
  }

  /** A list without range groups comes out unchanged. */
  lemma {:induction false} PlainTokensAreKept(tokens: seq<string>)
    requires forall i :: 0 <= i < |tokens| ==> FirstRangeGroup(tokens[i], 0).None?
    ensures ExpandAll(tokens) == tokens
  {
    if tokens != [] {
      PlainTokensAreKept(tokens[..|tokens| - 1]);
    }
  }

  /** Unfolding step: what `ExpandToken` gives for a token whose range is
      accepted, for the lemmas below to start from. */
  lemma ExpandTokenOfRange(a: string)
    requires HasExpandableRange(a)
    ensures var (p, q) := FirstRangeGroup(a, 0).value;
      var start := RangeStart(a);
      ExpandToken(a) == RangeNames(a[..p] + ZeroPrefix(start), a[q..], DigitsValue(start), DigitsValue(RangeEnd(a)))
  {
  }

  /** An accepted range gives `end - start + 1` names, all different, each
      keeping the text before the bracket group (with the start's leading
      zero, if any) and the text after it. */
  lemma RangeExpansionShape(a: string)
    requires HasExpandableRange(a)
    ensures var (p, q) := FirstRangeGroup(a, 0).value;
      var names := ExpandToken(a);
      var prefix := a[..p] + ZeroPrefix(RangeStart(a));
      && |names| == DigitsValue(RangeEnd(a)) - DigitsValue(RangeStart(a)) + 1
      && (forall k :: 0 <= k < |names| ==>
            |names[k]| > |prefix| + (|a| - q) && names[k][..|prefix|] == prefix && names[k][|names[k]| - (|a| - q)..] == a[q..])
      && (forall j, k :: 0 <= j < k < |names| ==> names[j] != names[k])
  {
    var (p, q) := FirstRangeGroup(a, 0).value;
    var start := RangeStart(a);
    ExpandTokenOfRange(a);
    RangeNamesDistinct(a[..p] + ZeroPrefix(start), a[q..], DigitsValue(start), DigitsValue(RangeEnd(a)));
    RangeNamesKeepAffixes(a[..p] + ZeroPrefix(start), a[q..], DigitsValue(start), DigitsValue(RangeEnd(a)));
  }

  /** The names of an accepted range come in ascending order: the k-th is
      the token with its first bracket group replaced by `start + k` (after
      the start's leading zero, if any). */
  lemma RangeExpansionInOrder(a: string, k: nat)
    requires HasExpandableRange(a)
    requires DigitsValue(RangeStart(a)) + k <= DigitsValue(RangeEnd(a))
    ensures k < |ExpandToken(a)|
    ensures var (p, q) := FirstRangeGroup(a, 0).value;
      ExpandToken(a)[k] == a[..p] + ZeroPrefix(RangeStart(a)) + NatToString(DigitsValue(RangeStart(a)) + k) + a[q..]
  {
    var (p, q) := FirstRangeGroup(a, 0).value;
    var prefix, lo := a[..p] + ZeroPrefix(RangeStart(a)), DigitsValue(RangeStart(a));
    ExpandTokenOfRange(a);
    RangeNamesAt(prefix, a[q..], lo, DigitsValue(RangeEnd(a)), k);
  }

  lemma RangeNamesAt(prefix: string, suffix: string, lo: nat, hi: nat, k: nat)
    requires lo <= hi && k <= hi - lo
    ensures RangeNames(prefix, suffix, lo, hi)[k] == prefix + NatToString(lo + k) + suffix
  {
    assert RangeNames(prefix, suffix, lo, hi)[k] == RangeName(prefix, suffix, lo + k);
  }

  /** The token holds a range group that the range test rejects. */
  predicate RangeRejected(a: string) {
    FirstRangeGroup(a, 0).Some? && !HasExpandableRange(a)
  }

  /** A token expands to nothing exactly when its range is rejected; an
      accepted range gives at least one name. */
  lemma ExpandTokenEmpty(a: string)
    ensures ExpandToken(a) == [] <==> RangeRejected(a)
  {
    if HasExpandableRange(a) {
      ExpandTokenOfRange(a);
    }
  }

  /** A property holds of every element of `init + [a]` iff it holds of
      every element of `init` and of `a`. */
  lemma EveryOfAppend(init: seq<string>, a: string, f: string -> bool)
    ensures (forall i :: 0 <= i < |init + [a]| ==> f((init + [a])[i])) <==> (forall i :: 0 <= i < |init| ==> f(init[i])) && f(a)
  {
    var tokens := init + [a];
    assert tokens[|init|] == a;
    if forall i :: 0 <= i < |init| ==> f(init[i]) {
      forall i | 0 <= i < |init| ensures f(tokens[i]) {
        assert tokens[i] == init[i];
      }
    }
    if forall i :: 0 <= i < |tokens| ==> f(tokens[i]) {
      forall i | 0 <= i < |init| ensures f(init[i]) {
        assert init[i] == tokens[i];
      }
    }
  }

  /** The expansion of a list is empty exactly when every token's range is rejected. */
  lemma {:induction false} ExpandAllEmpty(tokens: seq<string>)
    ensures ExpandAll(tokens) == [] <==> forall i :: 0 <= i < |tokens| ==> RangeRejected(tokens[i])
  {
    if tokens != [] {
      var init, a := tokens[..|tokens| - 1], tokens[|tokens| - 1];
      assert tokens == init + [a];
      assert ExpandAll(tokens) == ExpandAll(init) + ExpandToken(a);
      ExpandAllEmpty(init);
      ExpandTokenEmpty(a);
      EveryOfAppend(init, a, RangeRejected);
    }
  }

  /** Every name a non-empty token expands to is non-empty. */
  lemma ExpandTokenNamesNonEmpty(a: string)
    requires a != []
    ensures forall k :: 0 <= k < |ExpandToken(a)| ==> ExpandToken(a)[k] != []
  {
    if HasExpandableRange(a) {
      var (p, q) := FirstRangeGroup(a, 0).value;
      ExpandTokenOfRange(a);
      RangeNamesNonEmpty(a[..p] + ZeroPrefix(RangeStart(a)), a[q..], DigitsValue(RangeStart(a)), DigitsValue(RangeEnd(a)));
    }
  }

  /** A range name always holds its number, so it is never empty. */
  lemma RangeNamesNonEmpty(prefix: string, suffix: string, lo: nat, hi: nat)
    requires lo <= hi
    ensures forall k :: 0 <= k < |RangeNames(prefix, suffix, lo, hi)| ==> RangeNames(prefix, suffix, lo, hi)[k] != []
  {
    var names := RangeNames(prefix, suffix, lo, hi);
    forall k | 0 <= k < |names| ensures names[k] != [] {
      assert |names[k]| == |prefix| + |NatToString(lo + k)| + |suffix|;
    }
  }

  /** Expanding a list of non-empty valid names gives non-empty valid names. */
  lemma {:induction false} ExpandAllKeepsNamesValid(tokens: seq<string>)
    requires forall i :: 0 <= i < |tokens| ==> tokens[i] != [] && IsHostNameValid(tokens[i])
    ensures forall k :: 0 <= k < |ExpandAll(tokens)| ==> ExpandAll(tokens)[k] != [] && IsHostNameValid(ExpandAll(tokens)[k])
  {
    if tokens != [] {
      var init, a := tokens[..|tokens| - 1], tokens[|tokens| - 1];
      ExpandAllKeepsNamesValid(init);
      ExpansionKeepsNamesValid(a);
      ExpandTokenNamesNonEmpty(a);
      var r := ExpandAll(tokens);
      assert r == ExpandAll(init) + ExpandToken(a);
      forall k | 0 <= k < |r| ensures r[k] != [] && IsHostNameValid(r[k]) {
        if k >= |ExpandAll(init)| {
          assert r[k] == ExpandToken(a)[k - |ExpandAll(init)|];
        }
      }
    }
  }

  /** Expanding a valid name gives valid names: the characters at both ends
      are the token's own, or digits when the group sits at an end. */
  lemma ExpansionKeepsNamesValid(a: string)
    requires IsHostNameValid(a)
    ensures AllHostNamesValid(ExpandToken(a))
  {
    if HasExpandableRange(a) {
      var (p, q) := FirstRangeGroup(a, 0).value;
      var prefix := a[..p] + ZeroPrefix(RangeStart(a));
      AffixesOfValidName(a, p, q, ZeroPrefix(RangeStart(a)));
      ExpandTokenOfRange(a);
      RangeNamesValid(prefix, a[q..], DigitsValue(RangeStart(a)), DigitsValue(RangeEnd(a)));
    }
  }

  /** The text around a group of a valid name neither starts nor ends with '-'. */
  lemma AffixesOfValidName(a: string, p: nat, q: nat, zero: string)
    requires IsHostNameValid(a) && p <= q <= |a|
    requires zero == "" || zero == "0"
    ensures var prefix := a[..p] + zero; prefix == [] || prefix[0] != '-'
    ensures a[q..] == [] || a[q..][|a[q..]| - 1] != '-'
  {
    if p > 0 { assert (a[..p] + zero)[0] == a[0]; }
    if q < |a| { assert a[q..][|a[q..]| - 1] == a[|a| - 1]; }
  }

  // ----- the controller -----

  /** What clicking Next leads to (`evaluateStep` and `proceedNext`). */
  datatype StepAction =
    | StayOnStep                                         // submit is disabled
    | ConfirmPattern(hostNames: seq<string>)             // the expanded names are shown for confirmation
    | ConfirmManualInstall                               // the manual-install popup
    | LaunchBootstrap(hostNames: seq<string>, sshKey: string)  // bootstrap is requested for these hosts

  class Step2Controller {
    /** `content.hosts.*`: what the user typed. */
    var hostNames: string
    var manualInstall: Option<bool>
    var sshKey: string
    var hasSubmitted: bool
    /** The names the last validation or expansion left behind. */
    var hostNameArr: seq<string>
    var isPattern: bool

    constructor (hostNames: string, manualInstall: Option<bool>, sshKey: string)
      ensures this.hostNames == hostNames && this.manualInstall == manualInstall && this.sshKey == sshKey
      ensures !hasSubmitted && hostNameArr == [] && !isPattern
    {
      this.hostNames := hostNames;
      this.manualInstall := manualInstall;
      this.sshKey := sshKey;
      hasSubmitted := false;
      hostNameArr := [];
      isPattern := false;
    }

    /** `isAllHostNamesValid`: stores the split names and checks each. */
    method IsAllHostNamesValid() returns (valid: bool)
      modifies this`hostNameArr
      ensures hostNameArr == Tokens(hostNames)
      ensures valid == AllHostNamesValid(hostNameArr)
    {
      var names := Tokens(hostNames);
      hostNameArr := names;
      valid := CheckNames(names);
    }

    /** The loop of `isAllHostNamesValid`: it stops at the first invalid name. */
    static method CheckNames(names: seq<string>) returns (valid: bool)
      ensures valid == AllHostNamesValid(names)
    {
      valid := true;
      var index := 0;
      while index < |names| && valid
        invariant 0 <= index <= |names|
        invariant valid == forall i :: 0 <= i < index ==> IsHostNameValid(names[i])
        invariant !valid ==> !AllHostNamesValid(names)
      {
        valid := IsHostNameValid(names[index]);
        index := index + 1;
      }
    }

    /** `hostsError`; validating the names stores them as a side effect. */
    method HostsError() returns (error: Option<FieldError>)
      modifies this`hostNameArr
      ensures error == HostNamesError(hasSubmitted, hostNames)
      ensures hostNameArr == if error == Some(HostNamesRequired) then old(hostNameArr) else Tokens(hostNames)
    {
      if hasSubmitted && Trim(hostNames) == "" {
        return Some(HostNamesRequired);
      }
      var valid := IsAllHostNamesValid();
      if !valid {
        return Some(HostNamesInvalid);
      }
      return None;
    }

    predicate IsSubmitDisabled()
      reads this
    {
      SubmitDisabled(hasSubmitted, hostNames, manualInstall, sshKey)
    }

    /** `getHostInfo`: one entry per distinct name, keyed by the name. */
    method GetHostInfo() returns (hostInfo: map<string, HostInfo>)
      ensures hostInfo.Keys == set i | 0 <= i < |hostNameArr| :: hostNameArr[i]
      ensures forall name :: name in hostInfo ==>
        hostInfo[name] == HostInfo(name, InstallTypeOf(manualInstall), Pending)
    {
      hostInfo := map[];
      var i := 0;
      while i < |hostNameArr|
        invariant 0 <= i <= |hostNameArr|
        invariant hostInfo.Keys == set j | 0 <= j < i :: hostNameArr[j]
        invariant forall name :: name in hostInfo ==>
          hostInfo[name] == HostInfo(name, InstallTypeOf(manualInstall), Pending)
      {
        hostInfo := hostInfo[hostNameArr[i] := HostInfo(hostNameArr[i], InstallTypeOf(manualInstall), Pending)];
        i := i + 1;
      }
    }

    /** The inner loop of `patternExpression`: the names for `lo` up to `hi`, in order. */
    static method RangeLoop(prefix: string, suffix: string, lo: nat, hi: nat) returns (names: seq<string>)
      requires lo <= hi
      ensures names == RangeNames(prefix, suffix, lo, hi)
    {
      names := [];
      var i := lo;
      while i < hi + 1
        invariant lo <= i <= hi + 1
        invariant names == RangeNames(prefix, suffix, lo, hi)[..i - lo]
      {
        ghost var all := RangeNames(prefix, suffix, lo, hi);
        assert all[..i + 1 - lo] == all[..i - lo] + [RangeName(prefix, suffix, i)];
        names := names + [prefix + NatToString(i) + suffix];
        i := i + 1;
      }
    }

    /** The body of `patternExpression`'s loop for one token `a`: its
        expansion, and whether it held an accepted range. */
    static method ExpandOne(a: string) returns (expansion: seq<string>, expandable: bool)
      ensures expansion == ExpandToken(a)
      ensures expandable == HasExpandableRange(a)
    {
      expansion := [];
      expandable := false;
      var group := FirstRangeGroup(a, 0);
      if group.Some? {
        var (p, q) := group.value;
        var start := RangeStart(a);
        var end := RangeEnd(a);
        if RangeAccepted(start, end) {
          expandable := true;
          expansion := RangeLoop(a[..p] + ZeroPrefix(start), a[q..], DigitsValue(start), DigitsValue(end));
          ExpandTokenOfRange(a);
        }
      } else {
        expansion := [a];
      }
    }

    /** `patternExpression`: replaces every token by its expansion. `isPattern`
        is set once some token has an accepted range and is never cleared. */
    method PatternExpression()
      modifies this`hostNameArr, this`isPattern
      ensures hostNameArr == ExpandAll(old(hostNameArr))
      ensures isPattern == (old(isPattern) || AnyExpandable(old(hostNameArr)))
    {
      var tokens := hostNameArr;
      var names: seq<string> := [];
      var found := isPattern;
      for k := 0 to |tokens|
        invariant names == ExpandAll(tokens[..k])
        invariant found == (old(isPattern) || AnyExpandable(tokens[..k]))
        invariant isPattern == old(isPattern)
      {
        var expansion, expandable := ExpandOne(tokens[k]);
        if expandable {
          found := true;
        }
        ExpandAllStep(tokens, k);
        assert tokens[..k + 1][..k] == tokens[..k];
        names := names + expansion;
      }
      assert tokens[..|tokens|] == tokens;
      hostNameArr := names;
      isPattern := found;
    }

    /** `evaluateStep`, followed by `proceedNext` when nothing stops it. */
    function EvaluateStep(): (action: StepAction)
      reads this
      ensures action == StayOnStep <==> IsSubmitDisabled()
      ensures action.ConfirmPattern? ==> isPattern && action.hostNames == hostNameArr
      ensures action == ConfirmManualInstall ==> !isPattern && manualInstall == Some(true)
      ensures action.LaunchBootstrap? ==>
        !isPattern && manualInstall != Some(true) && action.hostNames == hostNameArr && action.sshKey == sshKey
    {
      if IsSubmitDisabled() then StayOnStep
      else if isPattern then ConfirmPattern(hostNameArr)
      else if manualInstall == Some(true) then ConfirmManualInstall
      else LaunchBootstrap(hostNameArr, sshKey)
    }
  }

  /** What bootstrap is requested for: the names last stored, which the
      validation of the submitted form left as the typed names, or which
      `patternExpression` then expanded. Every launched name is non-empty and
      valid; the typed list is never empty, while the expanded one is empty
      exactly when every typed name holds a rejected range. The key is sent
      as it is, and is set on the automatic path. */
  lemma LaunchedHostsAreStoredNames(c: Step2Controller)
    requires c.hasSubmitted && c.EvaluateStep().LaunchBootstrap?
    requires c.hostNameArr == Tokens(c.hostNames) || c.hostNameArr == ExpandAll(Tokens(c.hostNames))
    ensures c.EvaluateStep() == LaunchBootstrap(c.hostNameArr, c.sshKey)
    ensures var launched := c.EvaluateStep().hostNames;
      forall k :: 0 <= k < |launched| ==> launched[k] != [] && IsHostNameValid(launched[k])
    ensures c.hostNameArr == Tokens(c.hostNames) ==> |c.EvaluateStep().hostNames| >= 1
    ensures c.hostNameArr == ExpandAll(Tokens(c.hostNames)) ==>
      (c.EvaluateStep().hostNames == [] <==>
        forall i :: 0 <= i < |Tokens(c.hostNames)| ==> RangeRejected(Tokens(c.hostNames)[i]))
    ensures c.manualInstall == Some(false) ==> Trim(c.sshKey) != ""
  {
    var tokens := Tokens(c.hostNames);
    AcceptedHostListIsUsable(c.hostNames);
    ExpandAllKeepsNamesValid(tokens);
    ExpandAllEmpty(tokens);
  }

  /** Bootstrap is requested only for a submitted form whose typed host list
      is a non-empty list of usable names and, on the automatic path, whose
      key is set. */
  lemma SubmittedLaunchHasHostsAndKey(c: Step2Controller)
    requires c.hasSubmitted && c.EvaluateStep().LaunchBootstrap?
    ensures c.manualInstall != Some(true)
    ensures Trim(c.hostNames) != "" && |Tokens(c.hostNames)| >= 1
    ensures forall i :: 0 <= i < |Tokens(c.hostNames)| ==> Tokens(c.hostNames)[i] != [] && IsHostNameValid(Tokens(c.hostNames)[i])
    ensures c.manualInstall == Some(false) ==> Trim(c.sshKey) != ""
  {
    AcceptedHostListIsUsable(c.hostNames);
  }
}
