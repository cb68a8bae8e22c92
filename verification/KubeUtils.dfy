/** Names made fit for Kubernetes: each sanitizer drops what a kind of name does not allow. */
module KubeUtils {
  import opened Wrappers

  const MAX_K8S_VALUE_LENGTH := 253
  const MAX_DNS_NAME_LENGTH := 63
  const MAX_LABEL_VALUE_LENGTH := 63

  predicate IsLower(c: char) {
    'a' <= c <= 'z'
  }

  predicate IsAlpha(c: char) {
    IsLower(c) || 'A' <= c <= 'Z'
  }

  predicate IsAlphaNumeric(c: char) {
    IsAlpha(c) || '0' <= c <= '9'
  }

  predicate AllowedInLabel(c: char) {
    IsAlphaNumeric(c) || c == '-' || c == '.' || c == '_'
  }

  predicate AllowedInDns(c: char) {
    IsAlphaNumeric(c) || c == '-'
  }

  predicate AllowedGeneric(c: char) {
    IsAlphaNumeric(c) || c == '-' || c == '.'
  }

  const LOWER_CASE := "abcdefghijklmnopqrstuvwxyz"
  const UPPER_CASE := "ABCDEFGHIJKLMNOPQRSTUVWXYZ"
  const NUMERIC := "0123456789"

  lemma LowerCaseIs(c: char)
    ensures c in LOWER_CASE <==> 'a' <= c <= 'z'
  {
    if 'a' <= c <= 'z' {
      assert LOWER_CASE[c as int - 'a' as int] == c;
    }
  }

  lemma UpperCaseIs(c: char)
    ensures c in UPPER_CASE <==> 'A' <= c <= 'Z'
  {
    if 'A' <= c <= 'Z' {
      assert UPPER_CASE[c as int - 'A' as int] == c;
    }
  }

  lemma NumericIs(c: char)
    ensures c in NUMERIC <==> '0' <= c <= '9'
  {
    if '0' <= c <= '9' {
      assert NUMERIC[c as int - '0' as int] == c;
    }
  }

  /** The character classes, letter by letter. */
  lemma AlphabetsAre(c: char)
    ensures IsAlpha(c) <==> c in LOWER_CASE || c in UPPER_CASE
    ensures IsAlphaNumeric(c) <==> IsAlpha(c) || c in NUMERIC
    ensures AllowedInLabel(c) <==> IsAlphaNumeric(c) || c in "-._"
    ensures AllowedInDns(c) <==> IsAlphaNumeric(c) || c in "-"
    ensures AllowedGeneric(c) <==> IsAlphaNumeric(c) || c in "-."
  {
    LowerCaseIs(c);
    UpperCaseIs(c);
    NumericIs(c);
  }

  /**
   * Lower-casing, character by character, in whatever culture: it leaves lower
   * case letters, digits and punctuation alone and never yields A to Z.
   */
  ghost predicate LowersAscii(lower: char -> char) {
    && (forall c :: !('A' <= lower(c) <= 'Z'))
    && (forall c :: AllowedInLabel(c) && !('A' <= c <= 'Z') ==> lower(c) == c)
  }

  datatype Error = NullOrEmpty | BadStart | TooLong

  function Lowered(s: string, lower: char -> char): (r: string)
    ensures |r| == |s| && forall i :: 0 <= i < |s| ==> r[i] == lower(s[i])
  {
    seq(|s|, i requires 0 <= i < |s| => lower(s[i]))
  }

  // ------------------------------------------------------- reference functions

  function Kept(s: string, allowed: char -> bool): string {
    if s == [] then [] else if allowed(s[0]) then [s[0]] + Kept(s[1..], allowed) else Kept(s[1..], allowed)
  }

  function TrimStart(s: string, first: char -> bool): string {
    if s == [] || first(s[0]) then s else TrimStart(s[1..], first)
  }

  function TrimEnd(s: string): string {
    if |s| <= 1 || IsAlphaNumeric(s[|s| - 1]) then s else TrimEnd(s[..|s| - 1])
  }

  function Bounded(t: string, max: nat): Result<string, Error> {
    if |t| > max then Failure(TooLong) else Success(t)
  }

  /** Cut to the first good start and the last alphanumeric, then drop what is not allowed. */
  function Trimmed(s: string, first: char -> bool, allowed: char -> bool): string {
    Kept(TrimEnd(TrimStart(s, first)), allowed)
  }

  function Sanitized(s: string, first: char -> bool, allowed: char -> bool, max: nat): Result<string, Error> {
    if TrimStart(s, first) == [] then Failure(BadStart) else Bounded(Trimmed(s, first, allowed), max)
  }

  // ------------------------------------------------- what becomes of a name, by index

  /** `t` has the characters of `s` at the indices `at`, which are the allowed ones from `lo` up to `hi`, in order. */
  ghost predicate Picks(t: string, s: string, lo: nat, hi: nat, allowed: char -> bool, at: seq<int>)
    requires lo <= hi <= |s|
  {
    && |at| == |t|
    && (forall i :: 0 <= i < |at| ==> lo <= at[i] < hi && t[i] == s[at[i]])
    && (forall i, j :: 0 <= i < j < |at| ==> at[i] < at[j])
    && (forall k :: lo <= k < hi ==> (allowed(s[k]) <==> k in at))
  }

  /** The result is what is allowed in `s` from `lo` up to `hi`, unless that is too long. */
  ghost predicate FilteredTo(s: string, lo: nat, hi: nat, allowed: char -> bool, max: nat, r: Result<string, Error>)
    requires lo <= hi <= |s|
  {
    exists t, at :: Picks(t, s, lo, hi, allowed, at) && r == Bounded(t, max)
  }

  /** `a` is the first good start, and `z` the last alphanumeric from there on. */
  ghost predicate EndsAt(s: string, first: char -> bool, a: int, z: int) {
    && 0 <= a <= z < |s|
    && first(s[a]) && (forall i :: 0 <= i < a ==> !first(s[i]))
    && (z == a || IsAlphaNumeric(s[z])) && (forall i :: z < i < |s| ==> !IsAlphaNumeric(s[i]))
  }

  /** What a bounded sanitizer makes of a name. */
  ghost predicate SanitizedTo(s: string, first: char -> bool, allowed: char -> bool, max: nat,
                              r: Result<string, Error>) {
    if forall i :: 0 <= i < |s| ==> !first(s[i]) then r == Failure(BadStart)
    else exists a, z :: EndsAt(s, first, a, z) && FilteredTo(s, a, z + 1, allowed, max, r)
  }

  lemma {:induction false} KeptPicks(s: string, lo: nat, hi: nat, allowed: char -> bool) returns (at: seq<int>)
    requires lo <= hi <= |s|
    ensures Picks(Kept(s[lo..hi], allowed), s, lo, hi, allowed, at)
    decreases hi - lo
  {
    at := [];
    if lo < hi {
      at := KeptPicks(s, lo + 1, hi, allowed);
      assert s[lo..hi][1..] == s[lo + 1..hi];
      if allowed(s[lo]) {
        at := [lo] + at;
      }
    }
  }

  lemma KeptIsFiltered(s: string, lo: nat, hi: nat, allowed: char -> bool, max: nat)
    requires lo <= hi <= |s|
    ensures FilteredTo(s, lo, hi, allowed, max, Bounded(Kept(s[lo..hi], allowed), max))
  {
    var at := KeptPicks(s, lo, hi, allowed);
  }

  /** `t` is the name from its first good start on; it is empty when there is none. */
  ghost predicate CutBefore(s: string, first: char -> bool, t: string) {
    && |t| <= |s| && t == s[|s| - |t|..]
    && (t != [] ==> first(t[0])) && forall i :: 0 <= i < |s| - |t| ==> !first(s[i])
  }

  /** `u` is `t` up to its last alphanumeric, or its first character. */
  ghost predicate CutBehind(t: string, u: string) {
    && 0 < |u| <= |t| && u == t[..|u|]
    && (|u| == 1 || IsAlphaNumeric(u[|u| - 1])) && forall i :: |u| <= i < |t| ==> !IsAlphaNumeric(t[i])
  }

  lemma {:induction false} TrimStartShape(s: string, first: char -> bool)
    ensures CutBefore(s, first, TrimStart(s, first))
  {
    if s != [] && !first(s[0]) {
      TrimStartShape(s[1..], first);
      var t := TrimStart(s, first);
      assert s[1..][|s| - 1 - |t|..] == s[|s| - |t|..];
      forall i | 0 <= i < |s| - |t|
        ensures !first(s[i])
      {
        assert i > 0 ==> s[i] == s[1..][i - 1];
      }
    }
  }

  lemma {:induction false} TrimEndShape(s: string)
    requires s != []
    ensures CutBehind(s, TrimEnd(s))
  {
    if |s| > 1 && !IsAlphaNumeric(s[|s| - 1]) {
      TrimEndShape(s[..|s| - 1]);
    }
  }

  lemma EndsOfCut(s: string, first: char -> bool, t: string, u: string) returns (a: nat, z: nat)
    requires CutBefore(s, first, t) && CutBehind(t, u)
    ensures EndsAt(s, first, a, z) && s[a..z + 1] == u
  {
    a, z := |s| - |t|, |s| - |t| + |u| - 1;
    forall i | z < i < |s|
      ensures !IsAlphaNumeric(s[i])
    {
      assert s[i] == t[i - a];
    }
    assert u[|u| - 1] == s[z];
  }

  lemma FilteredIsSanitized(s: string, first: char -> bool, allowed: char -> bool, max: nat, r: Result<string, Error>,
                            a: int, z: int)
    requires EndsAt(s, first, a, z) && FilteredTo(s, a, z + 1, allowed, max, r)
    ensures SanitizedTo(s, first, allowed, max, r)
  {
    assert first(s[a]);
  }

  lemma CutIsSanitized(s: string, first: char -> bool, allowed: char -> bool, max: nat, t: string, u: string)
    requires CutBefore(s, first, t) && CutBehind(t, u)
    ensures SanitizedTo(s, first, allowed, max, Bounded(Kept(u, allowed), max))
  {
    var a, z := EndsOfCut(s, first, t, u);
    KeptIsFiltered(s, a, z + 1, allowed, max);
    FilteredIsSanitized(s, first, allowed, max, Bounded(Kept(u, allowed), max), a, z);
  }

  /**
   * A name without a good start is refused. Otherwise the characters that are
   * allowed stay, in order, from the first good start to the last alphanumeric;
   * they are refused exactly when there are too many.
   */
  lemma SanitizedByIndex(s: string, first: char -> bool, allowed: char -> bool, max: nat)
    ensures SanitizedTo(s, first, allowed, max, Sanitized(s, first, allowed, max))
  {
    var t := TrimStart(s, first);
    TrimStartShape(s, first);
    if t != [] {
      TrimEndShape(t);
      CutIsSanitized(s, first, allowed, max, t, TrimEnd(t));
    }
  }

  // ------------------------------------------------------------ the scan loops

  /** The index of the first good start, or the length of the name. */
  method ScanStart(name: string, first: char -> bool) returns (start: nat)
    ensures start <= |name| && name[start..] == TrimStart(name, first)
  {
    start := 0;
    while start < |name| && !first(name[start])
      invariant 0 <= start <= |name|
      invariant TrimStart(name, first) == TrimStart(name[start..], first)
    {
      start := start + 1;
    }
  }

  /** The index of the last alphanumeric behind `start`, or `start` itself. */
  method ScanEnd(name: string, start: nat) returns (end: nat)
    requires start < |name|
    ensures start <= end < |name| && name[start..end + 1] == TrimEnd(name[start..])
  {
    end := |name| - 1;
    assert name[start..end + 1] == name[start..];
    while end > start && !IsAlphaNumeric(name[end])
      invariant start <= end < |name|
      invariant TrimEnd(name[start..]) == TrimEnd(name[start..end + 1])
    {
      assert name[start..end + 1][..end - start] == name[start..end];
      end := end - 1;
    }
  }

  method Collect(s: string, allowed: char -> bool) returns (output: string)
    ensures output == Kept(s, allowed)
  {
    output := [];
    for i := 0 to |s|
      invariant output + Kept(s[i..], allowed) == Kept(s, allowed)
    {
      if allowed(s[i]) {
        assert output + ([s[i]] + Kept(s[i + 1..], allowed)) == output + [s[i]] + Kept(s[i + 1..], allowed);
        output := output + [s[i]];
      }
      assert s[i..][1..] == s[i + 1..];
    }
    assert output + [] == output;
  }

  /** What the bounded names share: cut at both ends, collect, check the length. */
  method Scan(name: string, first: char -> bool, allowed: char -> bool, max: nat)
    returns (r: Result<string, Error>)
    ensures r == Sanitized(name, first, allowed, max)
  {
    var start := ScanStart(name, first);
    if start == |name| {
      return Failure(BadStart);
    }
    var end := ScanEnd(name, start);
    var output := Collect(name[start..end + 1], allowed);
    return Bounded(output, max);
  }

  // -------------------------------------------------------------- the sanitizers

  function DnsValue(name: Option<string>, lower: char -> char): Result<string, Error> {
    if name == None || name.value == [] then Failure(NullOrEmpty)
    else Sanitized(Lowered(name.value, lower), IsAlpha, AllowedInDns, MAX_DNS_NAME_LENGTH)
  }

  method SanitizeDNSValue(name: Option<string>, lower: char -> char) returns (r: Result<string, Error>)
    ensures r == DnsValue(name, lower)
  {
    if name == None || name.value == [] {
      return Failure(NullOrEmpty);
    }
    r := Scan(Lowered(name.value, lower), IsAlpha, AllowedInDns, MAX_DNS_NAME_LENGTH);
  }

  /** The parts of `s` between the separators; there is one more of them than separators. */
  function Split(s: string, sep: char): (parts: seq<string>)
    ensures parts != []
  {
    if s == [] then [[]]
    else
      var rest := Split(s[1..], sep);
      if s[0] == sep then [[]] + rest else [[s[0]] + rest[0]] + rest[1..]
  }

  function Join(parts: seq<string>, sep: char): string
    requires parts != []
  {
    if |parts| == 1 then parts[0] else parts[0] + [sep] + Join(parts[1..], sep)
  }

  /** Every part sanitized, or the error of the first part that fails. */
  function DnsValues(parts: seq<string>, lower: char -> char): (r: Result<seq<string>, Error>)
    ensures r.Success? ==> |r.value| == |parts|
  {
    if parts == [] then Success([])
    else
      var first, rest := DnsValue(Some(parts[0]), lower), DnsValues(parts[1..], lower);
      if first.Failure? then Failure(first.error)
      else Glue([first.value], rest)
  }

  function DnsDomainValue(name: Option<string>, lower: char -> char): Result<string, Error> {
    if name == None || name.value == [] then Failure(NullOrEmpty)
    else
      var labels := DnsValues(Split(name.value, '.'), lower);
      if labels.Failure? then Failure(labels.error)
      else
        var r := Join(labels.value, '.');
        if |r| > MAX_K8S_VALUE_LENGTH then Failure(TooLong) else Success(r)
  }

  method SanitizeDNSDomain(name: Option<string>, lower: char -> char) returns (r: Result<string, Error>)
    ensures r == DnsDomainValue(name, lower)
  {
    if name == None || name.value == [] {
      return Failure(NullOrEmpty);
    }
    r := SanitizeSegments(Split(name.value, '.'), lower);
    if r.Success? && |r.value| > MAX_K8S_VALUE_LENGTH {
      r := Failure(TooLong);
    }
  }

  /** Sanitizes segment by segment, with a dot between any two; stops at the first that is refused. */
  method SanitizeSegments(segments: seq<string>, lower: char -> char) returns (r: Result<string, Error>)
    requires segments != []
    ensures r == match DnsValues(segments, lower)
                 case Failure(e) => Failure(e)
                 case Success(labels) => Success(Join(labels, '.'))
  {
    var output: string := [];
    ghost var labels: seq<string> := [];
    assert segments[0..] == segments;
    GlueTwice([], [], DnsValues(segments, lower));
    for i := 0 to |segments|
      invariant |labels| == i && (i > 0 ==> output == Join(labels, '.'))
      invariant DnsValues(segments, lower) == Glue(labels, DnsValues(segments[i..], lower))
    {
      var sanitized := SanitizeDNSValue(Some(segments[i]), lower);
      DnsValuesNext(segments, i, labels, lower);
      if sanitized.Failure? {
        return Failure(sanitized.error);
      }
      if i == 0 {
        output := sanitized.value;
        assert labels + [output] == [output];
      } else {
        JoinSnoc(labels, sanitized.value, '.');
        output := output + "." + sanitized.value;
      }
      labels := labels + [sanitized.value];
    }
    assert labels + [] == labels;
    return Success(output);
  }

  function Glue(before: seq<string>, r: Result<seq<string>, Error>): Result<seq<string>, Error> {
    if r.Success? then Success(before + r.value) else r
  }

  lemma GlueTwice(a: seq<string>, b: seq<string>, r: Result<seq<string>, Error>)
    ensures Glue(a, Glue(b, r)) == Glue(a + b, r)
    ensures Glue([], r) == r
  {
    if r.Success? {
      assert a + (b + r.value) == a + b + r.value;
      assert [] + r.value == r.value;
    }
  }

  lemma DnsValuesNext(parts: seq<string>, i: nat, labels: seq<string>, lower: char -> char)
    requires i < |parts|
    ensures var first := DnsValue(Some(parts[i]), lower);
            Glue(labels, DnsValues(parts[i..], lower)) ==
            if first.Failure? then Failure(first.error)
            else Glue(labels + [first.value], DnsValues(parts[i + 1..], lower))
  {
    assert parts[i..][1..] == parts[i + 1..];
    var first := DnsValue(Some(parts[i]), lower);
    if first.Success? {
      GlueTwice(labels, [first.value], DnsValues(parts[i + 1..], lower));
    }
  }

  lemma {:induction false} JoinSnoc(parts: seq<string>, last: string, sep: char)
    requires parts != []
    ensures Join(parts + [last], sep) == Join(parts, sep) + [sep] + last
  {
    if |parts| > 1 {
      JoinSnoc(parts[1..], last, sep);
      assert (parts + [last])[1..] == parts[1..] + [last];
    } else {
      assert (parts + [last])[1..] == [last];
    }
  }

  function NameValue(name: string): Result<string, Error> {
    Sanitized(name, IsAlphaNumeric, AllowedInLabel, MAX_LABEL_VALUE_LENGTH)
  }

  method SanitizeNameValue(name: string) returns (r: Result<string, Error>)
    ensures r == NameValue(name)
  {
    r := Scan(name, IsAlphaNumeric, AllowedInLabel, MAX_LABEL_VALUE_LENGTH);
  }

  function LabelValue(name: Option<string>, lower: char -> char): Result<string, Error> {
    if name == None || name.value == [] then Failure(NullOrEmpty) else NameValue(Lowered(name.value, lower))
  }

  method SanitizeLabelValue(name: Option<string>, lower: char -> char) returns (r: Result<string, Error>)
    ensures r == LabelValue(name, lower)
  {
    if name == None || name.value == [] {
      return Failure(NullOrEmpty);
    }
    r := SanitizeNameValue(Lowered(name.value, lower));
  }

  /** The part before the first slash; the whole key when there is none. */
  function Prefix(key: string): (p: string)
    ensures |p| <= |key| && p == key[..|p|] && '/' !in p
    ensures |p| < |key| ==> key[|p|] == '/'
    ensures |p| == |key| <==> '/' !in key
  {
    if key == [] || key[0] == '/' then [] else [key[0]] + Prefix(key[1..])
  }

  function AnnotationKey(key: Option<string>, lower: char -> char): Result<string, Error> {
    if key == None || key.value == [] then Failure(NullOrEmpty)
    else if '/' !in key.value then NameValue(key.value)
    else
      var prefix := Prefix(key.value);
      var domain, name := DnsDomainValue(Some(prefix), lower), NameValue(key.value[|prefix| + 1..]);
      if domain.Failure? then domain
      else if name.Failure? then name
      else Success(domain.value + "/" + name.value)
  }

  method SanitizeAnnotationKey(key: Option<string>, lower: char -> char) returns (r: Result<string, Error>)
    ensures r == AnnotationKey(key, lower)
  {
    if key == None || key.value == [] {
      return Failure(NullOrEmpty);
    }
    if '/' !in key.value {
      r := SanitizeNameValue(key.value);
      return;
    }
    var prefix := Prefix(key.value);
    r := SanitizeDNSDomain(Some(prefix), lower);
    if r.Success? {
      var name := SanitizeNameValue(key.value[|prefix| + 1..]);
      r := if name.Success? then Success(r.value + "/" + name.value) else name;
    }
  }

  function K8sValue(name: string, lower: char -> char): Result<string, Error> {
    Bounded(Kept(Lowered(name, lower), AllowedGeneric), MAX_K8S_VALUE_LENGTH)
  }

  /** A missing value is fine and stays missing. */
  method SanitizeK8sValue(name: Option<string>, lower: char -> char) returns (r: Result<Option<string>, Error>)
    ensures r == match name
                 case None => Success(None)
                 case Some(s) =>
                   match K8sValue(s, lower)
                   case Success(v) => Success(Some(v))
                   case Failure(e) => Failure(e)
  {
    if name == None {
      return Success(None);
    }
    var output := Collect(Lowered(name.value, lower), AllowedGeneric);
    return if |output| > MAX_K8S_VALUE_LENGTH then Failure(TooLong) else Success(Some(output));
  }

  // --------------------------------------------------- what the sanitizers return, by index

  /** A missing or empty name is refused; any other is lower-cased and treated by index. */
  lemma DnsValueByIndex(name: Option<string>, lower: char -> char)
    ensures var r := DnsValue(name, lower);
            if name == None || name.value == [] then r == Failure(NullOrEmpty)
            else SanitizedTo(Lowered(name.value, lower), IsAlpha, AllowedInDns, 63, r)
  {
    if name.Some? {
      SanitizedByIndex(Lowered(name.value, lower), IsAlpha, AllowedInDns, MAX_DNS_NAME_LENGTH);
    }
  }

  lemma NameValueByIndex(name: string)
    ensures SanitizedTo(name, IsAlphaNumeric, AllowedInLabel, 63, NameValue(name))
  {
    SanitizedByIndex(name, IsAlphaNumeric, AllowedInLabel, MAX_LABEL_VALUE_LENGTH);
  }

  lemma LabelValueByIndex(name: Option<string>, lower: char -> char)
    ensures var r := LabelValue(name, lower);
            if name == None || name.value == [] then r == Failure(NullOrEmpty)
            else SanitizedTo(Lowered(name.value, lower), IsAlphaNumeric, AllowedInLabel, 63, r)
  {
    if name.Some? {
      NameValueByIndex(Lowered(name.value, lower));
    }
  }

  /** The allowed characters of the lower-cased value stay, in order, unless there are too many. */
  lemma K8sValueByIndex(name: string, lower: char -> char)
    ensures FilteredTo(Lowered(name, lower), 0, |name|, AllowedGeneric, 253, K8sValue(name, lower))
  {
    var lowered := Lowered(name, lower);
    assert lowered[0..|lowered|] == lowered;
    KeptIsFiltered(lowered, 0, |lowered|, AllowedGeneric, MAX_K8S_VALUE_LENGTH);
  }

  // ---------------------------------------------------------- conforming names

  /** A good start, an alphanumeric end, allowed characters only, and not too long. */
  ghost predicate Conforms(s: string, first: char -> bool, allowed: char -> bool, max: nat) {
    && 0 < |s| <= max
    && first(s[0]) && IsAlphaNumeric(s[|s| - 1])
    && forall i :: 0 <= i < |s| ==> allowed(s[i])
  }

  ghost predicate NoUpperCase(s: string) {
    forall i :: 0 <= i < |s| ==> !('A' <= s[i] <= 'Z')
  }

  /** A DNS label as in section 2.3.1 of RFC 1035, in lower case. */
  ghost predicate IsDnsLabel(s: string) {
    Conforms(s, IsAlpha, AllowedInDns, MAX_DNS_NAME_LENGTH) && NoUpperCase(s)
  }

  /** DNS labels joined by dots. */
  ghost predicate IsDnsDomain(s: string) {
    |s| <= MAX_K8S_VALUE_LENGTH && forall part :: part in Split(s, '.') ==> IsDnsLabel(part)
  }

  ghost predicate IsName(s: string) {
    Conforms(s, IsAlphaNumeric, AllowedInLabel, MAX_LABEL_VALUE_LENGTH)
  }

  ghost predicate IsLabelValue(s: string) {
    IsName(s) && NoUpperCase(s)
  }

  /** A name, with a domain and exactly one slash before it if there is a slash at all. */
  ghost predicate IsAnnotationKey(s: string) {
    if '/' in s then IsDnsDomain(Prefix(s)) && IsName(s[|Prefix(s)| + 1..]) else IsName(s)
  }

  ghost predicate IsK8sValue(s: string) {
    |s| <= MAX_K8S_VALUE_LENGTH && NoUpperCase(s) && forall i :: 0 <= i < |s| ==> AllowedGeneric(s[i])
  }

  // ------------------------------------------------- what the functions return

  lemma {:induction false} KeptMembers(s: string, allowed: char -> bool)
    ensures |Kept(s, allowed)| <= |s|
    ensures forall c :: c in Kept(s, allowed) ==> c in s && allowed(c)
  {
    if s != [] {
      KeptMembers(s[1..], allowed);
    }
  }

  lemma {:induction false} KeptEnds(s: string, allowed: char -> bool)
    requires s != [] && allowed(s[0]) && allowed(s[|s| - 1])
    ensures var t := Kept(s, allowed); t != [] && t[0] == s[0] && t[|t| - 1] == s[|s| - 1]
  {
    KeptLast(s, allowed);
  }

  lemma {:induction false} KeptLast(s: string, allowed: char -> bool)
    requires s != [] && allowed(s[|s| - 1])
    ensures var t := Kept(s, allowed); t != [] && t[|t| - 1] == s[|s| - 1]
  {
    if |s| > 1 {
      KeptLast(s[1..], allowed);
    }
  }

  lemma {:induction false} KeptAll(s: string, allowed: char -> bool)
    requires forall i :: 0 <= i < |s| ==> allowed(s[i])
    ensures Kept(s, allowed) == s
  {
    if s != [] {
      KeptAll(s[1..], allowed);
    }
  }

  /** The result of a bounded sanitizer conforms, and holds only characters of the name. */
  lemma SanitizedConforms(s: string, first: char -> bool, allowed: char -> bool, max: nat)
    requires forall c :: first(c) ==> IsAlphaNumeric(c)
    requires forall c :: IsAlphaNumeric(c) ==> allowed(c)
    ensures var r := Sanitized(s, first, allowed, max);
            r.Success? ==> Conforms(r.value, first, allowed, max) && forall c :: c in r.value ==> c in s
  {
    TrimStartShape(s, first);
    var t := TrimStart(s, first);
    if t != [] {
      TrimEndShape(t);
      var u := TrimEnd(t);
      KeptMembers(u, allowed);
      KeptEnds(u, allowed);
      var k := Kept(u, allowed);
      forall i | 0 <= i < |k|
        ensures allowed(k[i])
      {
        assert k[i] in k;
      }
    }
  }

  /** A bounded sanitizer leaves a name unchanged exactly when the name conforms. */
  lemma SanitizedFixpoint(s: string, first: char -> bool, allowed: char -> bool, max: nat)
    requires forall c :: first(c) ==> IsAlphaNumeric(c)
    requires forall c :: IsAlphaNumeric(c) ==> allowed(c)
    ensures Sanitized(s, first, allowed, max) == Success(s) <==> Conforms(s, first, allowed, max)
  {
    if Conforms(s, first, allowed, max) {
      TrimStartShape(s, first);
      TrimEndShape(s);
      KeptAll(s, allowed);
    } else {
      SanitizedConforms(s, first, allowed, max);
    }
  }

  lemma LoweredShape(s: string, lower: char -> char)
    requires LowersAscii(lower)
    ensures forall c :: c in Lowered(s, lower) ==> !('A' <= c <= 'Z')
    ensures NoUpperCase(s) && (forall i :: 0 <= i < |s| ==> AllowedInLabel(s[i])) ==> Lowered(s, lower) == s
  {
  }

  // --------------------------------------------------- conformance and stability

  /** A sanitized DNS name is a label, and exactly the labels come back unchanged. */
  lemma DnsValueConforms(s: string, lower: char -> char)
    requires LowersAscii(lower)
    ensures DnsValue(Some(s), lower).Success? ==> IsDnsLabel(DnsValue(Some(s), lower).value)
    ensures DnsValue(Some(s), lower) == Success(s) <==> IsDnsLabel(s)
  {
    DnsValueIsLabel(s, lower);
    if IsDnsLabel(s) {
      LoweredShape(s, lower);
      SanitizedFixpoint(s, IsAlpha, AllowedInDns, MAX_DNS_NAME_LENGTH);
    }
  }

  lemma DnsValueIsLabel(s: string, lower: char -> char)
    requires LowersAscii(lower)
    ensures DnsValue(Some(s), lower).Success? ==> IsDnsLabel(DnsValue(Some(s), lower).value)
  {
    var low := Lowered(s, lower);
    SanitizedConforms(low, IsAlpha, AllowedInDns, MAX_DNS_NAME_LENGTH);
    LoweredShape(s, lower);
    var r := DnsValue(Some(s), lower);
    if r.Success? {
      forall i | 0 <= i < |r.value|
        ensures !('A' <= r.value[i] <= 'Z')
      {
        assert r.value[i] in r.value;
      }
    }
  }

  lemma {:induction false} SplitOfPlain(s: string, sep: char)
    requires sep !in s
    ensures Split(s, sep) == [s]
  {
    if s != [] {
      SplitOfPlain(s[1..], sep);
      assert [s[0]] + s[1..] == s;
    }
  }

  lemma {:induction false} SplitAfter(s: string, rest: string, sep: char)
    requires sep !in s
    ensures Split(s + [sep] + rest, sep) == [s] + Split(rest, sep)
  {
    var whole := s + [sep] + rest;
    if s == [] {
      assert whole[1..] == rest;
    } else {
      SplitAfter(s[1..], rest, sep);
      assert whole[1..] == s[1..] + [sep] + rest;
      assert [s[0]] + s[1..] == s;
    }
  }

  lemma {:induction false} SplitOfJoin(parts: seq<string>, sep: char)
    requires parts != [] && forall part :: part in parts ==> sep !in part
    ensures Split(Join(parts, sep), sep) == parts
  {
    assert parts[0] in parts;
    if |parts| == 1 {
      SplitOfPlain(parts[0], sep);
    } else {
      SplitOfJoin(parts[1..], sep);
      SplitAfter(parts[0], Join(parts[1..], sep), sep);
    }
  }

  lemma {:induction false} JoinOfSplit(s: string, sep: char)
    ensures Join(Split(s, sep), sep) == s
  {
    if s != [] {
      JoinOfSplit(s[1..], sep);
    }
  }

  lemma {:induction false} DnsValuesConform(parts: seq<string>, lower: char -> char)
    requires LowersAscii(lower)
    ensures var r := DnsValues(parts, lower);
            r.Success? ==> forall part :: part in r.value ==> IsDnsLabel(part)
    ensures (forall part :: part in parts ==> IsDnsLabel(part)) ==> DnsValues(parts, lower) == Success(parts)
  {
    if parts != [] {
      DnsValuesConform(parts[1..], lower);
      DnsValueConforms(parts[0], lower);
      assert parts == [parts[0]] + parts[1..];
    }
  }

  /** A sanitized domain is labels joined by dots, and exactly the domains come back unchanged. */
  lemma DnsDomainConforms(s: string, lower: char -> char)
    requires LowersAscii(lower)
    ensures var r := DnsDomainValue(Some(s), lower); r.Success? ==> IsDnsDomain(r.value)
    ensures DnsDomainValue(Some(s), lower) == Success(s) <==> IsDnsDomain(s)
  {
    var parts := Split(s, '.');
    var labels := DnsValues(parts, lower);
    DnsValuesConform(parts, lower);
    if labels.Success? {
      forall part | part in labels.value
        ensures '.' !in part
      {
        assert IsDnsLabel(part);
      }
      SplitOfJoin(labels.value, '.');
    }
    if IsDnsDomain(s) {
      JoinOfSplit(s, '.');
      assert s != [] by {
        assert parts[0] in parts;
      }
    }
  }

  /** The labels that the parts are sanitized to. */
  ghost predicate LabelsOf(parts: seq<string>, lower: char -> char, labels: seq<string>) {
    |labels| == |parts| && forall i :: 0 <= i < |parts| ==> DnsValue(Some(parts[i]), lower) == Success(labels[i])
  }

  /** The first part that is refused. */
  ghost predicate FirstRefused(parts: seq<string>, lower: char -> char, i: int) {
    && 0 <= i < |parts| && DnsValue(Some(parts[i]), lower).Failure?
    && forall j :: 0 <= j < i ==> DnsValue(Some(parts[j]), lower).Success?
  }

  lemma {:induction false} DnsValuesByIndex(parts: seq<string>, lower: char -> char)
    ensures var r := DnsValues(parts, lower);
            match r
            case Success(labels) => LabelsOf(parts, lower, labels)
            case Failure(e) =>
              exists i :: FirstRefused(parts, lower, i) && DnsValue(Some(parts[i]), lower) == Failure(e)
  {
    if parts != [] {
      DnsValuesByIndex(parts[1..], lower);
      var rest := DnsValues(parts[1..], lower);
      if DnsValue(Some(parts[0]), lower).Failure? {
        assert FirstRefused(parts, lower, 0);
      } else if rest.Failure? {
        var i :| FirstRefused(parts[1..], lower, i) && DnsValue(Some(parts[1..][i]), lower) == Failure(rest.error);
        assert FirstRefused(parts, lower, i + 1);
      }
    }
  }

  /**
   * Parts joined by dots: the error of the first part that is refused, or else
   * their labels joined by dots, unless those are too long together.
   */
  lemma DnsDomainByPart(parts: seq<string>, lower: char -> char)
    requires parts != [] && forall part :: part in parts ==> '.' !in part
    ensures var r := DnsDomainValue(Some(Join(parts, '.')), lower);
            || (exists i :: FirstRefused(parts, lower, i) && r == Failure(DnsValue(Some(parts[i]), lower).error))
            || (exists labels :: LabelsOf(parts, lower, labels) &&
                  var domain := Join(labels, '.');
                  r == if |domain| > 253 then Failure(TooLong) else Success(domain))
  {
    SplitOfJoin(parts, '.');
    DnsValuesByIndex(parts, lower);
    if Join(parts, '.') == [] {
      assert parts == Split([], '.') == [[]];
      assert FirstRefused(parts, lower, 0);
    }
  }

  lemma NameConforms(s: string)
    ensures var r := NameValue(s); r.Success? ==> IsName(r.value)
    ensures NameValue(s) == Success(s) <==> IsName(s)
  {
    SanitizedConforms(s, IsAlphaNumeric, AllowedInLabel, MAX_LABEL_VALUE_LENGTH);
    SanitizedFixpoint(s, IsAlphaNumeric, AllowedInLabel, MAX_LABEL_VALUE_LENGTH);
  }

  /** A sanitized label value conforms, and exactly the label values come back unchanged. */
  lemma LabelConforms(s: string, lower: char -> char)
    requires LowersAscii(lower)
    ensures var r := LabelValue(Some(s), lower); r.Success? ==> IsLabelValue(r.value)
    ensures LabelValue(Some(s), lower) == Success(s) <==> IsLabelValue(s)
  {
    var low := Lowered(s, lower);
    var r := LabelValue(Some(s), lower);
    NameConforms(low);
    NameConforms(s);
    LoweredShape(s, lower);
    SanitizedConforms(low, IsAlphaNumeric, AllowedInLabel, MAX_LABEL_VALUE_LENGTH);
    if r.Success? {
      forall i | 0 <= i < |r.value|
        ensures !('A' <= r.value[i] <= 'Z')
      {
        assert r.value[i] in r.value;
      }
    }
  }

  /** Every name comes back from the generic sanitizer conforming, and exactly the conforming ones unchanged. */
  lemma K8sConforms(s: string, lower: char -> char)
    requires LowersAscii(lower)
    ensures var r := K8sValue(s, lower); r.Success? ==> IsK8sValue(r.value)
    ensures K8sValue(s, lower) == Success(s) <==> IsK8sValue(s)
  {
    var low := Lowered(s, lower);
    LoweredShape(s, lower);
    KeptMembers(low, AllowedGeneric);
    var r := Kept(low, AllowedGeneric);
    forall i | 0 <= i < |r|
      ensures AllowedGeneric(r[i]) && !('A' <= r[i] <= 'Z')
    {
      assert r[i] in r;
    }
    if IsK8sValue(s) {
      KeptAll(s, AllowedGeneric);
    }
  }

  lemma {:induction false} SplitCovers(s: string, sep: char, c: char) returns (part: string)
    requires c in s && c != sep
    ensures part in Split(s, sep) && c in part
  {
    var rest := Split(s[1..], sep);
    if s[0] == c {
      part := [c] + rest[0];
      assert part == Split(s, sep)[0];
    } else {
      part := SplitCovers(s[1..], sep, c);
      if s[0] != sep && part == rest[0] {
        part := [s[0]] + rest[0];
        assert part == Split(s, sep)[0];
      } else {
        var i :| 0 <= i < |rest| && rest[i] == part;
        assert Split(s, sep)[if s[0] == sep then i + 1 else i] == part;
      }
    }
  }

  lemma DomainHasNoSlash(s: string)
    requires IsDnsDomain(s)
    ensures '/' !in s
  {
    if '/' in s {
      var _ := SplitCovers(s, '.', '/');
    }
  }

  lemma PrefixOfJoined(domain: string, name: string)
    requires '/' !in domain
    ensures Prefix(domain + "/" + name) == domain
  {
    var key := domain + "/" + name;
    assert key[|domain|] == '/' && key[..|domain|] == domain;
  }

  /**
   * A missing or empty key is refused, and one without a slash is a name. A
   * domain, a slash and a name: the error of the domain comes before that of the name.
   */
  lemma AnnotationKeyByPart(domain: string, name: string, lower: char -> char)
    requires '/' !in domain
    ensures AnnotationKey(None, lower) == Failure(NullOrEmpty)
    ensures AnnotationKey(Some(domain), lower) == if domain == [] then Failure(NullOrEmpty) else NameValue(domain)
    ensures AnnotationKey(Some(domain + "/" + name), lower) ==
            match DnsDomainValue(Some(domain), lower)
            case Failure(e) => Failure(e)
            case Success(d) =>
              match NameValue(name)
              case Failure(e) => Failure(e)
              case Success(n) => Success(d + "/" + n)
  {
    var key := domain + "/" + name;
    PrefixOfJoined(domain, name);
    assert key[|domain|] == '/' && key[|domain| + 1..] == name;
  }

  /**
   * A sanitized annotation key splits back at its one slash into a domain and a
   * name, and exactly the conforming keys come back unchanged.
   */
  lemma AnnotationKeyConforms(s: string, lower: char -> char)
    requires LowersAscii(lower)
    ensures var r := AnnotationKey(Some(s), lower); r.Success? ==> IsAnnotationKey(r.value)
    ensures AnnotationKey(Some(s), lower) == Success(s) <==> IsAnnotationKey(s)
  {
    if '/' in s {
      var prefix, rest := Prefix(s), s[|Prefix(s)| + 1..];
      DnsDomainConforms(prefix, lower);
      NameConforms(rest);
      var domain, name := DnsDomainValue(Some(prefix), lower), NameValue(rest);
      if domain.Success? && name.Success? {
        DomainHasNoSlash(domain.value);
        PrefixOfJoined(domain.value, name.value);
      }
      assert s == prefix + "/" + rest;
    } else {
      NameConforms(s);
    }
  }
}
