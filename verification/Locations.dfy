/**
 * URL patterns: compiled into locations, kept in a list without duplicates, and matched.
 */
module Locations {
  import opened Wrappers
  import opened Strings

  /** `location_t` without its link; the list is a sequence, most recent first. */
  datatype Location = Location(host: string, port: int, prefix: string, suffix: Option<string>, isExact: bool)

  function Last(s: string): char
    requires s != ""
  {
    s[|s| - 1]
  }

  // ---- Compiling a pattern ----

  /** `atoi` on what follows the colon of a host. */
  function Atoi(s: string): int
  {
    if s == "" then 0
    else if s[0] in " \t\n\r\U{0B}\U{0C}" then Atoi(s[1..])
    else if s[0] == '-' then 0 - Digits(s[1..], 0)
    else if s[0] == '+' then Digits(s[1..], 0)
    else Digits(s, 0)
  }

  function Digits(s: string, n: nat): nat
  {
    if s == "" || !('0' <= s[0] <= '9') then n else Digits(s[1..], 10 * n + (s[0] as int - '0' as int))
  }

  /** The decimal numeral of a number. */
  function Decimal(n: nat): (s: string)
    ensures s != "" && (forall c :: c in s ==> '0' <= c <= '9') && (n > 0 ==> s[0] != '0')
  {
    if n < 10 then ["0123456789"[n]] else Decimal(n / 10) + ["0123456789"[n % 10]]
  }

  /** Digits are read from left to right, each a decimal place below the one before. */
  lemma {:induction false} DigitsOfDecimal(n: nat, rest: string)
    ensures Digits(Decimal(n) + rest, 0) == Digits(rest, n)
  {
    if n < 10 {
      OneDigit(n, rest, 0);
    } else {
      var last := ["0123456789"[n % 10]] + rest;
      DigitsOfDecimal(n / 10, last);
      assert Decimal(n) + rest == Decimal(n / 10) + last;
      hide Digits, Decimal;
      OneDigit(n % 10, rest, n / 10);
    }
  }

  lemma OneDigit(d: nat, rest: string, n: nat)
    requires d < 10
    ensures Digits(["0123456789"[d]] + rest, n) == Digits(rest, 10 * n + d)
  {
    var s := ["0123456789"[d]] + rest;
    assert s[1..] == rest && s[0] == '0' + d as char;
  }

  lemma {:induction false} AtoiBehindSpace(blank: string, s: string)
    requires forall c :: c in blank ==> c in [' ', '\t', '\n', '\r', '\U{0B}', '\U{0C}']
    ensures Atoi(blank + s) == Atoi(s)
  {
    if blank == "" {
      assert blank + s == s;
    } else {
      assert (blank + s)[1..] == blank[1..] + s;
      AtoiBehindSpace(blank[1..], s);
    }
  }

  /** White space and a sign may come before a numeral, and whatever is not a digit ends it. */
  lemma AtoiOfNumeral(blank: string, n: nat, rest: string)
    requires forall c :: c in blank ==> c in [' ', '\t', '\n', '\r', '\U{0B}', '\U{0C}']
    requires rest == "" || !('0' <= rest[0] <= '9')
    ensures Atoi(blank + (Decimal(n) + rest)) == n
    ensures Atoi(blank + ("+" + Decimal(n) + rest)) == n
    ensures Atoi(blank + ("-" + Decimal(n) + rest)) == 0 - n
  {
    var numeral := Decimal(n) + rest;
    DigitsOfDecimal(n, rest);
    assert Decimal(n)[0] in Decimal(n) && numeral[0] == Decimal(n)[0];
    assert Atoi(numeral) == Digits(numeral, 0);
    assert ("+" + Decimal(n) + rest)[1..] == numeral;
    assert ("-" + Decimal(n) + rest)[1..] == numeral;
    assert Digits(rest, n) == n;
    hide Digits, Decimal;
    AtoiBehindSpace(blank, numeral);
    AtoiBehindSpace(blank, "+" + Decimal(n) + rest);
    AtoiBehindSpace(blank, "-" + Decimal(n) + rest);
  }

  /** A web-app prefix in its normal spelling: a leading slash and no trailing one. */
  function App(prefix: string): string
  {
    var p := if prefix != "" && prefix[0] != '/' then "/" + prefix else prefix;
    if p != "" && Last(p) == '/' then p[..|p| - 1] else p
  }

  lemma AppIsAbsolute(prefix: string)
    ensures App(prefix) == "" || App(prefix)[0] == '/'
  {
  }

  /** A pattern with its leading slash. */
  function Path(pattern: string): string
  {
    if pattern != "" && pattern[0] != '/' then "/" + pattern else pattern
  }

  /** The start of the prefix buffer, whatever pattern is to follow. */
  method CleanPrefix(prefix: string, pattern: string) returns (clean: string)
    ensures clean == App(prefix)
  {
    clean := "";
    if prefix == "" && pattern != "" && pattern[0] != '/' && pattern[0] != '*' {
      clean := "/";
    } else if prefix != "" && prefix[0] != '/' {
      clean := "/";
    }
    clean := clean + prefix;
    if |clean| > 0 && clean[|clean| - 1] == '/' {
      clean := clean[..|clean| - 1];
    }
  }

  lemma Joined(app: string, pattern: string)
    requires pattern != ""
    ensures (if pattern[0] != '/' then app + "/" else app) + pattern == app + Path(pattern)
    ensures var full := app + Path(pattern); |full| >= |pattern| && full[|full| - 1] == Last(pattern)
  {
  }

  /** The host and port of a pattern are parted at the colon. */
  function HostOf(host: string): string
  {
    var colon := Find(host, ":");
    if colon.Some? then host[..colon.value] else host
  }

  function PortOf(host: string): int
  {
    var colon := Find(host, ":");
    if colon.Some? then Atoi(host[colon.value + 1..]) else 0
  }

  /** A host as the configuration gives it: a name, which holds no colon, and perhaps a port. */
  function Given(name: string, port: Option<nat>): string
  {
    if port.None? then name else name + ":" + Decimal(port.value)
  }

  /** Name and port are read back; a name alone, like port 0, stands for every port. */
  lemma GivenReadsBack(name: string, port: Option<nat>)
    requires forall c :: c in name ==> c != ':'
    ensures HostOf(Given(name, port)) == name
    ensures PortOf(Given(name, port)) == if port.Some? then port.value else 0
  {
    hide Find, Atoi;
    var given := Given(name, port);
    forall i: nat | i < |name| ensures !At(given, ":", i) {
      assert given[i + 0] == name[i] && name[i] in name && name[i] != ":"[0];
    }
    if port.Some? {
      assert given[|name|] == ':';
      assert At(given, ":", |name|);
      FindUnique(given, ":", |name|);
      assert given[|name| + 1..] == "" + (Decimal(port.value) + "");
      AtoiOfNumeral("", port.value, "");
    }
  }

  /** `cse_add_location`, up to the call that adds. */
  method CompilePattern(host: string, prefix: string, pattern: string) returns (loc: Location)
    ensures loc == Compile(host, prefix, pattern)
  {
    hide Atoi, Find, CompilePath;
    var locHost, port := host, 0;
    var colon := Find(host, ":");
    if colon.Some? {
      port := Atoi(host[colon.value + 1..]);
      locHost := host[..colon.value];
    }
    loc := EditPath(prefix, pattern);
    loc := loc.(host := locHost, port := port);
  }

  /** The editing of the prefix buffer, and the flags it sets. */
  method EditPath(prefix: string, pattern: string) returns (loc: Location)
    ensures loc == CompilePath(prefix, pattern)
  {
    hide App, Path, Last;
    var clean := CleanPrefix(prefix, pattern);
    if pattern == "" {
      return Location("", 0, clean, None, false);
    }
    if pattern[0] == '*' {
      return Location("", 0, clean, Some(pattern[1..]), false);
    }
    var isExact := false;
    if pattern[0] != '/' {
      clean := clean + "/";
    }
    clean := clean + pattern;
    Joined(App(prefix), pattern);
    if |pattern| <= 1 {
      clean := clean[..|clean| - 1];
    } else if clean[|clean| - 1] != '*' {
      isExact := true;
    } else if |clean| > 2 {
      clean := clean[..|clean| - 2];
    }
    return Location("", 0, clean, None, isExact);
  }

  function Compile(host: string, prefix: string, pattern: string): Location
  {
    CompilePath(prefix, pattern).(host := HostOf(host), port := PortOf(host))
  }

  /** A pattern for any host: what remains of prefix and pattern, and how it is to be matched. */
  function CompilePath(prefix: string, pattern: string): Location
  {
    var full := App(prefix) + Path(pattern);
    if pattern == "" then Location("", 0, App(prefix), None, false)
    else if pattern[0] == '*' then Location("", 0, App(prefix), Some(pattern[1..]), false)
    else if |pattern| == 1 then Location("", 0, full[..|full| - 1], None, false)
    else if Last(pattern) != '*' then Location("", 0, full, None, true)
    else Location("", 0, if |full| > 2 then full[..|full| - 2] else full, None, false)
  }

  // ---- Matching ----

  /** The URI is the path or below it; "/foolish" is not below "/foo". */
  predicate Under(uri: string, path: string)
  {
    path <= uri && (|uri| == |path| || uri[|path|] == '/')
  }

  lemma NotPrefix(full: string, part: string, i: nat)
    requires i < |part| && i <= |full| && (i < |full| ==> full[i] != part[i])
    ensures !(part <= full)
  {
  }

  /** `cse_starts_with` */
  method StartsWith(full: string, part: string) returns (r: bool)
    ensures r == Under(full, part)
  {
    var i := 0;
    while i < |part| && i < |full| && full[i] == part[i]
      invariant 0 <= i <= |part| && i <= |full|
      invariant full[..i] == part[..i]
    {
      i := i + 1;
    }
    if i < |part| {
      NotPrefix(full, part, i);
      return false;
    }
    assert part[..i] == part;
    if i == |full| {
      return true;
    }
    return full[i] == '/';
  }

  lemma UnderMeaning(uri: string, path: string)
    ensures Under(uri, path) <==> uri == path || exists rest :: uri == path + "/" + rest
  {
    if path <= uri && |uri| > |path| && uri[|path|] == '/' {
      assert uri == path + "/" + uri[|path| + 1..];
    }
  }

  predicate Ended(full: string, i: nat)
  {
    i == |full| || (i < |full| && full[i] == '/')
  }

  /** The extension occurs somewhere, ended by the end of the URI or by a slash. */
  ghost predicate HasEnded(full: string, suffix: string)
  {
    exists i: nat :: At(full, suffix, i) && Ended(full, i + |suffix|)
  }

  /** The parts of a string before, at and after an extension, which the end or a slash follows. */
  predicate Parted(uri: string, s: string, suffix: string, t: string)
  {
    uri == s + suffix + t && (t == "" || t[0] == '/')
  }

  lemma HasEndedMeaning(uri: string, suffix: string)
    ensures HasEnded(uri, suffix)
            <==> exists s, t :: Parted(uri, s, suffix, t)
  {
    if HasEnded(uri, suffix) {
      var i: nat :| At(uri, suffix, i) && Ended(uri, i + |suffix|);
      AtMeaning(uri, suffix, i);
      var t := uri[i + |suffix|..];
      assert Parted(uri, uri[..i], suffix, t);
    }
    if s, t :| Parted(uri, s, suffix, t) {
      AtMeaning(uri, suffix, |s|);
      assert uri[|s|..|s| + |suffix|] == suffix;
      assert At(uri, suffix, |s|) && Ended(uri, |s| + |suffix|);
    }
  }

  /** The scan of `cse_match_suffix`, which resumes after a whole match. */
  predicate Scan(full: string, suffix: string)
    requires suffix != ""
    decreases |full|
  {
    var m := Find(full, suffix);
    m.Some? && (Ended(full, m.value + |suffix|) || Scan(full[m.value + |suffix|..], suffix))
  }

  /** `cse_match_suffix`; it would never end on an empty suffix of a relative URI. */
  method MatchSuffix(uri: string, suffix: string) returns (r: bool)
    requires suffix != "" || uri == "" || uri[0] == '/'
    ensures r == (suffix == "" || Scan(uri, suffix))
  {
    var full := uri;
    while true
      invariant suffix == "" ==> full == uri
      invariant suffix != "" ==> Scan(uri, suffix) == Scan(full, suffix)
      decreases |full|
    {
      var m := Find(full, suffix);
      if suffix == "" {
        FindEmpty(full);
      }
      if m.None? {
        return false;
      }
      var end := m.value + |suffix|;
      if end == |full| || full[end] == '/' {
        return true;
      }
      full := full[end..];
      if full == "" {
        return false;
      }
    }
  }

  /** An overlap of the suffix with itself that the scan steps over. */
  ghost predicate Overlaps(suffix: string, b: nat)
  {
    0 < b < |suffix| && suffix[..b] == suffix[|suffix| - b..] && suffix[b] != '/'
  }

  ghost predicate Skips(suffix: string)
  {
    exists b: nat :: Overlaps(suffix, b)
  }

  lemma AtShift(full: string, pat: string, from: nat, i: nat)
    requires from <= |full| && from <= i
    ensures At(full, pat, i) <==> At(full[from..], pat, i - from)
    ensures Ended(full, i) <==> Ended(full[from..], i - from)
  {
  }

  /** What the scan finds is there. */
  lemma {:induction false} ScanSound(full: string, suffix: string)
    requires suffix != "" && Scan(full, suffix)
    ensures HasEnded(full, suffix)
    decreases |full|
  {
    var m := Find(full, suffix).value;
    var end := m + |suffix|;
    if !Ended(full, end) {
      ScanSound(full[end..], suffix);
      var i: nat :| At(full[end..], suffix, i) && Ended(full[end..], i + |suffix|);
      AtShift(full, suffix, end, end + i);
      AtShift(full, suffix, end, end + i + |suffix|);
      assert At(full, suffix, end + i) && Ended(full, end + i + |suffix|);
    }
  }

  /** Two overlapping occurrences make an overlap of the suffix with itself. */
  lemma OverlapSkips(full: string, suffix: string, m: nat, i: nat)
    requires At(full, suffix, m) && At(full, suffix, i) && m < i < m + |suffix|
    requires !Ended(full, m + |suffix|)
    ensures Skips(suffix)
  {
    var b := m + |suffix| - i;
    forall k | 0 <= k < b ensures suffix[k] == suffix[|suffix| - b + k] {
      assert full[i + k] == suffix[k];
      assert full[m + (i - m + k)] == suffix[i - m + k];
    }
    assert suffix[..b] == suffix[|suffix| - b..];
    assert full[i + b] == suffix[b];
    assert Overlaps(suffix, b);
  }

  /** The scan misses nothing of a suffix without such an overlap. */
  lemma {:induction false} ScanComplete(full: string, suffix: string, i: nat)
    requires suffix != "" && !Skips(suffix)
    requires At(full, suffix, i) && Ended(full, i + |suffix|)
    ensures Scan(full, suffix)
    decreases |full|
  {
    var m := Find(full, suffix).value;
    var end := m + |suffix|;
    if !Ended(full, end) {
      if i < end {
        OverlapSkips(full, suffix, m, i);
      }
      AtShift(full, suffix, end, i);
      AtShift(full, suffix, end, i + |suffix|);
      ScanComplete(full[end..], suffix, i - end);
    }
  }

  /** The suffix, and once more what follows the overlap: the scan steps over the only ended occurrence. */
  function Doubled(suffix: string, b: nat): string
    requires b <= |suffix|
  {
    suffix + suffix[b..]
  }

  lemma DoubledIsSkipped(suffix: string, b: nat)
    requires Overlaps(suffix, b)
    ensures HasEnded(Doubled(suffix, b), suffix) && !Scan(Doubled(suffix, b), suffix)
  {
    hide Find;
    var w, n := Doubled(suffix, b), |suffix|;
    assert At(w, suffix, 0);
    FindUnique(w, suffix, 0);
    assert w[n] == suffix[b] && w[n..] == suffix[b..];
    forall k | 0 <= k < n ensures w[n - b + k] == suffix[k] {
      if k < b {
        assert suffix[..b][k] == suffix[n - b..][k];
      }
    }
    assert At(w, suffix, n - b) && Ended(w, n - b + n);
  }

  /** A run of one character that neither starts nor ends the suffix, and is as long. */
  ghost predicate Pad(pad: string, suffix: string)
    requires suffix != ""
  {
    |pad| == |suffix| && forall k :: 0 <= k < |pad| ==> pad[k] != suffix[0] && pad[k] != Last(suffix) && pad[k] != '/'
  }

  function PadFor(suffix: string): (pad: string)
    requires suffix != ""
    ensures Pad(pad, suffix)
  {
    var z := if 'a' != suffix[0] && 'a' != Last(suffix) then 'a'
             else if 'b' != suffix[0] && 'b' != Last(suffix) then 'b' else 'c';
    seq(|suffix|, _ => z)
  }

  /** No occurrence starts in the padding, and none starts before it and ends in it. */
  lemma PadApart(x: string, pad: string, w: string, suffix: string, m: nat)
    requires suffix != "" && Pad(pad, suffix) && m < |x| + |pad| && |x| < m + |suffix|
    ensures !At(x + pad + w, suffix, m)
  {
    var s, e := x + pad + w, m + |suffix| - 1;
    if m >= |x| {
      assert s[m + 0] == pad[m - |x|];
    } else {
      assert s[m + (|suffix| - 1)] == s[e] == pad[e - |x|];
    }
  }

  /** An occurrence behind a string is one in what follows it. */
  lemma AtBehind(x: string, w: string, pat: string, i: nat)
    ensures At(x + w, pat, |x| + i) <==> At(w, pat, i)
    ensures Ended(x + w, |x| + i) <==> Ended(w, i)
  {
    AtShift(x + w, pat, |x|, |x| + i);
    assert (x + w)[|x|..] == w;
  }

  /** What is found in a string is found first in any longer one. */
  lemma FoundEarly(s: string, t: string, pat: string)
    requires Find(s, pat).Some?
    ensures Find(s + t, pat) == Find(s, pat)
  {
    var m := Find(s, pat).value;
    forall i: nat | i <= m ensures At(s + t, pat, i) <==> At(s, pat, i) {
      AtEarly(s, t, pat, i);
    }
    hide Find, At;
    FindUnique(s + t, pat, m);
  }

  lemma AtEarly(s: string, t: string, pat: string, i: nat)
    requires i + |pat| <= |s|
    ensures At(s + t, pat, i) <==> At(s, pat, i)
  {
    assert forall k :: 0 <= k < |pat| ==> ((s + t)[i + k] == pat[k] <==> s[i + k] == pat[k]);
  }

  /** Nothing is found in the padding, so the scan goes on behind it. */
  lemma ScanPad(pad: string, w: string, suffix: string)
    requires suffix != "" && Pad(pad, suffix) && Scan(pad + w, suffix)
    ensures Scan(w, suffix)
  {
    hide Find;
    var m := Find(pad + w, suffix).value;
    assert [] + pad + w == pad + w;
    if m < |pad| {
      PadApart([], pad, w, suffix, m);
    }
    FoundBehind(pad, w, suffix);
    AtBehind(pad, w, suffix, m - |pad| + |suffix|);
    assert (pad + w)[m + |suffix|..] == w[m - |pad| + |suffix|..];
  }

  lemma FoundBehind(x: string, w: string, pat: string)
    requires Find(x + w, pat).Some? && Find(x + w, pat).value >= |x|
    ensures Find(w, pat) == Some(Find(x + w, pat).value - |x|)
  {
    var m := Find(x + w, pat).value;
    AtBehind(x, w, pat, m - |x|);
    forall i: nat | i < m - |x| ensures !At(w, pat, i) {
      AtBehind(x, w, pat, i);
    }
    hide Find, At;
    FindUnique(w, pat, m - |x|);
  }

  /** The string behind a position in it, part by part. */
  lemma Behind(app: string, pad: string, w: string, end: nat)
    ensures var s := app + "/" + pad + w;
            && s == app + ("/" + pad + w)
            && |s| == |app| + 1 + |pad| + |w|
            && (end <= |app| ==>
                  s[end] == (if end < |app| then app[end] else '/') && s[end..] == app[end..] + "/" + pad + w)
            && (end == |app| + 1 ==> s[end..] == pad + w && (pad != "" ==> s[end] == pad[0]))
            && (|app| + 1 + |pad| <= end <= |s| ==> s[end..] == w[end - (|app| + 1 + |pad|)..])
  {
    var s := app + "/" + pad + w;
    if end <= |app| {
      assert s[end..] == app[end..] + "/" + pad + w;
    } else if end == |app| + 1 {
      assert s[end..] == pad + w;
    }
  }

  /** Below a prefix in which the scan fails, only what is behind the padding counts. */
  lemma {:induction false} ScanBehind(app: string, pad: string, w: string, suffix: string)
    requires suffix != "" && Pad(pad, suffix) && !Scan(app, suffix) && Scan(app + "/" + pad + w, suffix)
    ensures Scan(w, suffix)
    decreases |app|
  {
    hide Find, At;
    var x := app + "/";
    var s := x + pad + w;
    var m := Find(s, suffix).value;
    var end := m + |suffix|;
    if m < |x| + |pad| && |x| < end {
      PadApart(x, pad, w, suffix, m);
    }
    AtFits(s, suffix, m);
    Behind(app, pad, w, end);
    if end <= |app| {
      FoundFirst(app, "/" + pad + w, suffix, m);
      ScanBehind(app[end..], pad, w, suffix);
    } else if end == |x| {
      ScanPad(pad, w, suffix);
    } else {
      FoundBehind(x + pad, w, suffix);
      AtBehind(x + pad, w, suffix, end - |x + pad|);
    }
  }

  lemma AtFits(s: string, pat: string, m: nat)
    requires At(s, pat, m)
    ensures m + |pat| <= |s|
  {
  }

  lemma FoundFirst(s: string, t: string, pat: string, m: nat)
    requires Find(s + t, pat) == Some(m) && m + |pat| <= |s|
    ensures Find(s, pat) == Some(m)
  {
    forall i: nat | i <= m ensures At(s + t, pat, i) <==> At(s, pat, i) {
      AtEarly(s, t, pat, i);
    }
    hide Find, At;
    FindUnique(s, pat, m);
  }

  /** A scan that succeeds within the prefix succeeds on everything below it. */
  lemma {:induction false} ScanBelow(app: string, tail: string, suffix: string)
    requires suffix != "" && Scan(app, suffix) && (tail == "" || tail[0] == '/')
    ensures Scan(app + tail, suffix)
    decreases |app|
  {
    hide Find;
    FoundEarly(app, tail, suffix);
    var end := Find(app, suffix).value + |suffix|;
    if Ended(app, end) {
      assert end < |app| ==> (app + tail)[end] == app[end];
    } else {
      assert (app + tail)[end] == app[end];
      assert (app + tail)[end..] == app[end..] + tail;
      ScanBelow(app[end..], tail, suffix);
    }
  }

  /** A URI below the prefix whose only ended occurrence behind the prefix is stepped over. */
  function SkippedUri(app: string, suffix: string, b: nat): string
    requires suffix != "" && b <= |suffix|
  {
    app + "/" + PadFor(suffix) + Doubled(suffix, b)
  }

  /** The scan misses it, although it has an ended occurrence, unless the scan succeeds in the prefix already. */
  lemma SkippedUriIsSkipped(app: string, suffix: string, b: nat)
    requires Overlaps(suffix, b) && !Scan(app, suffix)
    ensures var uri := SkippedUri(app, suffix, b);
            Under(uri, app) && HasEnded(uri, suffix) && !Scan(uri, suffix)
  {
    hide Find, At, Scan, Ended;
    var w := Doubled(suffix, b);
    DoubledIsSkipped(suffix, b);
    var x := app + "/" + PadFor(suffix);
    var i: nat :| At(w, suffix, i) && Ended(w, i + |suffix|);
    AtBehind(x, w, suffix, i);
    AtBehind(x, w, suffix, i + |suffix|);
    assert At(x + w, suffix, |x| + i) && Ended(x + w, |x| + i + |suffix|);
    if Scan(x + w, suffix) {
      ScanBehind(app, PadFor(suffix), w, suffix);
    }
  }

  lemma OverlapBounds(suffix: string, b: nat)
    requires Overlaps(suffix, b)
    ensures 0 < b < |suffix|
  {
  }

  /** The suffix search means what it should on every URI exactly if no such overlap exists. */
  lemma ScanMeaning(suffix: string)
    requires suffix != ""
    ensures (forall uri :: Scan(uri, suffix) == HasEnded(uri, suffix)) <==> !Skips(suffix)
  {
    hide Scan, At, Ended, Overlaps;
    if Skips(suffix) {
      var b: nat :| Overlaps(suffix, b);
      assert 0 < b < |suffix| by {
        OverlapBounds(suffix, b);
      }
      DoubledIsSkipped(suffix, b);
      var uri := Doubled(suffix, b);
      assert Scan(uri, suffix) != HasEnded(uri, suffix);
    } else {
      forall uri ensures Scan(uri, suffix) == HasEnded(uri, suffix) {
        if Scan(uri, suffix) {
          ScanSound(uri, suffix);
        } else if HasEnded(uri, suffix) {
          var i: nat :| At(uri, suffix, i) && Ended(uri, i + |suffix|);
          ScanComplete(uri, suffix, i);
        }
      }
    }
  }

  /** One turn of the loop of `cse_match_location`. */
  predicate Matches(loc: Location, host: string, port: int, uri: string)
  {
    && (loc.host == "" || Find(loc.host, host).Some?)
    && (port == 0 || loc.port == 0 || port == loc.port)
    && if loc.isExact then uri == loc.prefix
       else Under(uri, loc.prefix) && (loc.suffix.None? || loc.suffix.value == "" || Scan(uri, loc.suffix.value))
  }

  /** Compiled prefixes are empty or absolute. */
  predicate Compiled(loc: Location)
  {
    loc.prefix == "" || loc.prefix[0] == '/'
  }

  lemma CompileIsCompiled(host: string, prefix: string, pattern: string)
    ensures Compiled(Compile(host, prefix, pattern))
  {
    hide App, Find, Atoi, Last;
    AppIsAbsolute(prefix);
  }

  /** `cse_match_location` over a list of compiled locations. */
  method MatchLocation(list: seq<Location>, host: string, port: int, uri: string) returns (r: bool)
    requires forall loc :: loc in list ==> Compiled(loc)
    ensures r == exists loc :: loc in list && Matches(loc, host, port, uri)
  {
    var i := 0;
    while i < |list|
      invariant 0 <= i <= |list|
      invariant forall j :: 0 <= j < i ==> !Matches(list[j], host, port, uri)
    {
      var loc := list[i];
      assert Compiled(loc);
      i := i + 1;
      if loc.host != "" && Find(loc.host, host).None? {
        continue;
      } else if port != 0 && loc.port != 0 && port != loc.port {
        continue;
      } else if loc.isExact && uri == loc.prefix {
        assert loc in list && Matches(loc, host, port, uri);
        return true;
      } else if loc.isExact {
        continue;
      }
      var under := StartsWith(uri, loc.prefix);
      if !under {
        continue;
      }
      if loc.suffix.Some? {
        var found := MatchSuffix(uri, loc.suffix.value);
        if !found {
          continue;
        }
      }
      assert loc in list && Matches(loc, host, port, uri);
      return true;
    }
    r := false;
  }

  // ---- What a pattern should match ----

  /** The pattern forms that are documented: no star except a leading one or one after a final slash. */
  predicate Documented(pattern: string)
  {
    pattern == "" || pattern[0] == '*' || Last(pattern) != '*'
    || (|Path(pattern)| >= 2 && Path(pattern)[|Path(pattern)| - 2] == '/')
  }

  ghost predicate Meaning(app: string, pattern: string, uri: string)
  {
    if pattern == "" || pattern == "/" then Under(uri, app)
    else if pattern[0] == '*' then Under(uri, app) && HasEnded(uri, pattern[1..])
    else if Last(pattern) == '*' then Under(uri, app + Path(pattern)[..|Path(pattern)| - 2])
    else uri == app + Path(pattern)
  }

  /**
   * Under a prefix: a one-character name; the star directly under the root; or an extension the
   * scan can step over, unless the prefix itself holds it in a place where the scan sees it.
   */
  ghost predicate Misread(prefix: string, pattern: string)
  {
    pattern != "" &&
    if pattern[0] == '*' then Skips(pattern[1..]) && !Scan(App(prefix), pattern[1..])
    else (|pattern| == 1 && pattern != "/") || (Path(pattern) == "/*" && App(prefix) == "")
  }

  ghost predicate MatchesPath(prefix: string, pattern: string, uri: string)
  {
    Matches(Compile("", prefix, pattern), "", 0, uri)
  }

  lemma HostIsOpen(prefix: string, pattern: string, uri: string)
    ensures var loc := Compile("", prefix, pattern);
            MatchesPath(prefix, pattern, uri)
            <==> if loc.isExact then uri == loc.prefix
                 else
                   && Under(uri, loc.prefix)
                   && (loc.suffix.None? || loc.suffix.value == "" || Scan(uri, loc.suffix.value))
  {
  }

  lemma EmptyEnds(uri: string)
    ensures HasEnded(uri, "")
  {
    assert At(uri, "", |uri|) && Ended(uri, |uri|);
  }

  /** What matching looks at in a compiled pattern. */
  lemma CompiledParts(prefix: string, pattern: string)
    requires Documented(pattern) && !Misread(prefix, pattern)
    ensures var loc := Compile("", prefix, pattern);
            if pattern == "" || pattern == "/" then !loc.isExact && loc.prefix == App(prefix) && loc.suffix.None?
            else if pattern[0] == '*' then !loc.isExact && loc.prefix == App(prefix) && loc.suffix == Some(pattern[1..])
            else if Last(pattern) == '*' then
              && |Path(pattern)| >= 2 && !loc.isExact && loc.suffix.None?
              && loc.prefix == App(prefix) + Path(pattern)[..|Path(pattern)| - 2]
            else loc.isExact && loc.prefix == App(prefix) + Path(pattern)
  {
    hide App, Find, Atoi, Skips, Scan;
    var full, path := App(prefix) + Path(pattern), Path(pattern);
    if pattern == "/" {
      assert full[..|full| - 1] == App(prefix);
    } else if pattern != "" && pattern[0] != '*' && Last(pattern) == '*' {
      assert full[..|full| - 2] == App(prefix) + path[..|path| - 2];
    }
  }

  /** The documented meaning on every URI, under every prefix the pattern is not misread under. */
  lemma PathMeaning(prefix: string, pattern: string, uri: string)
    requires Documented(pattern) && !Misread(prefix, pattern)
    ensures MatchesPath(prefix, pattern, uri) == Meaning(App(prefix), pattern, uri)
  {
    hide MatchesPath, Matches, Compile, Path, Find, At, Scan, HasEnded, App, Under, Ended, Skips;
    HostIsOpen(prefix, pattern, uri);
    CompiledParts(prefix, pattern);
    if pattern != "" && pattern[0] == '*' {
      if pattern[1..] == "" {
        EmptyEnds(uri);
      } else if Skips(pattern[1..]) {
        PrefixDecides(App(prefix), pattern[1..], uri);
      } else {
        ScanMeaning(pattern[1..]);
      }
    }
  }

  /** Where the scan succeeds within the prefix, every URI below it has an ended occurrence, and the scan sees one. */
  lemma PrefixDecides(app: string, suffix: string, uri: string)
    requires suffix != "" && Scan(app, suffix)
    ensures Under(uri, app) ==> Scan(uri, suffix) && HasEnded(uri, suffix)
  {
    hide Scan, HasEnded;
    if Under(uri, app) {
      var tail := uri[|app|..];
      assert uri == app + tail && (tail == "" || tail[0] == '/');
      ScanBelow(app, tail, suffix);
      ScanSound(uri, suffix);
    }
  }

  lemma ExtensionDiffers(prefix: string, pattern: string, b: nat)
    requires pattern != "" && pattern[0] == '*' && Overlaps(pattern[1..], b) && !Scan(App(prefix), pattern[1..])
    ensures var uri := SkippedUri(App(prefix), pattern[1..], b);
            && uri != "" && uri[0] == '/'
            && !MatchesPath(prefix, pattern, uri) && Meaning(App(prefix), pattern, uri)
  {
    hide Scan, At, HasEnded, Find, App;
    var uri := SkippedUri(App(prefix), pattern[1..], b);
    SkippedUriIsSkipped(App(prefix), pattern[1..], b);
    AppIsAbsolute(prefix);
    HostIsOpen(prefix, pattern, uri);
  }

  lemma StarPath(pattern: string)
    requires pattern != "" && pattern[0] != '*' && Path(pattern) == "/*"
    ensures pattern == "/*"
  {
    assert Path(pattern)[1] == '*';
  }

  /** The URI a name or the star directly under the root misses. */
  function MissedUri(prefix: string, pattern: string): string
  {
    if Path(pattern) == "/*" then "/" else App(prefix) + Path(pattern)
  }

  lemma NameDiffers(prefix: string, pattern: string)
    requires pattern != "" && pattern[0] != '*' && Misread(prefix, pattern) && Documented(pattern)
    ensures var uri := MissedUri(prefix, pattern);
            && uri != "" && uri[0] == '/'
            && !MatchesPath(prefix, pattern, uri) && Meaning(App(prefix), pattern, uri)
  {
    hide Scan, At, HasEnded, Find, App;
    var uri := MissedUri(prefix, pattern);
    AppIsAbsolute(prefix);
    HostIsOpen(prefix, pattern, uri);
    if Path(pattern) == "/*" {
      StarPath(pattern);
      assert Path(pattern)[..0] == "";
    } else {
      assert uri[..|uri| - 1] == App(prefix) + "/";
      assert !(Under(uri, App(prefix) + "/"));
    }
  }

  lemma PathDiffers(prefix: string, pattern: string) returns (uri: string)
    requires Documented(pattern) && Misread(prefix, pattern)
    ensures uri != "" && uri[0] == '/' && !MatchesPath(prefix, pattern, uri) && Meaning(App(prefix), pattern, uri)
  {
    hide MatchesPath, Meaning, App, Scan;
    if pattern[0] == '*' {
      var b: nat :| Overlaps(pattern[1..], b);
      ExtensionDiffers(prefix, pattern, b);
      uri := SkippedUri(App(prefix), pattern[1..], b);
    } else {
      NameDiffers(prefix, pattern);
      uri := MissedUri(prefix, pattern);
    }
  }

  /**
   * A server name and port admit a request: its host occurs in the name, unless the name is empty,
   * and its port is the given one, unless one of the two is 0.
   */
  ghost predicate Admits(name: string, port: int, reqHost: string, reqPort: int)
  {
    && (name == "" || exists i: nat :: At(name, reqHost, i))
    && (reqPort == 0 || port == 0 || reqPort == port)
  }

  /** A location looks at the host, at the port and at the path, each by itself. */
  lemma MatchesParts(loc: Location, host: string, port: int, uri: string)
    ensures Matches(loc, host, port, uri)
            <==> Admits(loc.host, loc.port, host, port) && Matches(loc.(host := "", port := 0), "", 0, uri)
  {
    hide At, Under, Scan;
    if Find(loc.host, host).Some? {
      assert At(loc.host, host, Find(loc.host, host).value);
    }
  }

  /** A pattern under a host as it is given, a prefix, and a request. */
  ghost predicate MatchesPattern(given: string, prefix: string, pattern: string, host: string, port: int, uri: string)
  {
    Matches(Compile(given, prefix, pattern), host, port, uri)
  }

  lemma PatternParts(
    name: string, p: Option<nat>, prefix: string, pattern: string, host: string, port: int, uri: string)
    requires forall c :: c in name ==> c != ':'
    ensures MatchesPattern(Given(name, p), prefix, pattern, host, port, uri)
            <==> Admits(name, if p.Some? then p.value else 0, host, port) && MatchesPath(prefix, pattern, uri)
  {
    assert Given("", None) == "";
    hide Admits, Find, Scan, Under, Atoi, CompilePath, Given, Matches;
    GivenReadsBack(name, p);
    GivenReadsBack("", None);
    MatchesParts(Compile(Given(name, p), prefix, pattern), host, port, uri);
  }

  /**
   * Compile-then-match means what is documented on every request: the server name and port admit
   * it and the path is one of the pattern's, under every prefix the pattern is not misread under.
   */
  lemma PatternMeaning(
    name: string, p: Option<nat>, prefix: string, pattern: string, host: string, port: int, uri: string)
    requires forall c :: c in name ==> c != ':'
    requires Documented(pattern) && !Misread(prefix, pattern)
    ensures MatchesPattern(Given(name, p), prefix, pattern, host, port, uri)
            <==>
            && (name == "" || exists i: nat :: At(name, host, i))
            && (port == 0 || p == None || p == Some(0) || p == Some(port))
            && Meaning(App(prefix), pattern, uri)
  {
    hide MatchesPattern, MatchesPath, Meaning, App, At, Misread, Documented, Given;
    PatternParts(name, p, prefix, pattern, host, port, uri);
    PathMeaning(prefix, pattern, uri);
  }

  /** A misread pattern misses an absolute URI it should match, whatever host it is given for. */
  lemma MisreadDiffers(name: string, p: Option<nat>, prefix: string, pattern: string) returns (uri: string)
    requires forall c :: c in name ==> c != ':'
    requires Documented(pattern) && Misread(prefix, pattern)
    ensures uri != "" && uri[0] == '/' && Meaning(App(prefix), pattern, uri)
    ensures forall host, port :: !MatchesPattern(Given(name, p), prefix, pattern, host, port, uri)
  {
    hide MatchesPattern, MatchesPath, Meaning, App, Misread, Documented, Given, Admits;
    uri := PathDiffers(prefix, pattern);
    forall host, port ensures !MatchesPattern(Given(name, p), prefix, pattern, host, port, uri) {
      PatternParts(name, p, prefix, pattern, host, port, uri);
    }
  }

  /** Under each web-app prefix, a documented pattern means what it should on every request iff it is not misread. */
  lemma PatternsMeanWhatTheySay(name: string, p: Option<nat>, prefix: string, pattern: string)
    requires forall c :: c in name ==> c != ':'
    requires Documented(pattern)
    ensures (forall host, port, uri ::
               MatchesPattern(Given(name, p), prefix, pattern, host, port, uri)
               <==> Admits(name, if p.Some? then p.value else 0, host, port) && Meaning(App(prefix), pattern, uri))
            <==> !Misread(prefix, pattern)
  {
    hide MatchesPattern, MatchesPath, Meaning, App, Misread, Documented, Given;
    var asked := if p.Some? then p.value else 0;
    if Misread(prefix, pattern) {
      var uri := MisreadDiffers(name, p, prefix, pattern);
      assert At(name, "", 0);
      assert Admits(name, asked, "", 0);
      assert !MatchesPattern(Given(name, p), prefix, pattern, "", 0, uri);
    } else {
      forall host, port, uri
        ensures MatchesPattern(Given(name, p), prefix, pattern, host, port, uri)
                <==> Admits(name, asked, host, port) && Meaning(App(prefix), pattern, uri)
      {
        hide Admits;
        PatternParts(name, p, prefix, pattern, host, port, uri);
        PathMeaning(prefix, pattern, uri);
      }
    }
  }

  /** The documented forms, spelled out. */
  lemma FormsMean(app: string, x: string, uri: string)
    ensures Meaning(app, "", uri) == Meaning(app, "/", uri) == Meaning(app, "/*", uri) == Under(uri, app)
    ensures x != "" && x[|x| - 1] != '*' ==> (Meaning(app, "/" + x, uri) <==> uri == app + "/" + x)
    ensures Meaning(app, "/" + x + "/*", uri) <==> Under(uri, app + "/" + x)
    ensures Meaning(app, "*" + x, uri)
            <==> Under(uri, app) && exists s, t :: Parted(uri, s, x, t)
  {
    hide Under, HasEnded;
    HasEndedMeaning(uri, x);
    var ext := "*" + x;
    assert ext[0] == '*' && ext[1..] == x;
    assert Meaning(app, ext, uri) == (Under(uri, app) && HasEnded(uri, x));
    assert app + ("/" + x) == app + "/" + x;
    assert ("/" + x + "/*")[..|x| + 1] == "/" + x;
    assert "/*"[..0] == "";
    assert app + "" == app;
  }

  /** None of these forms is ever misread but the star under the root and a suffix that overlaps itself. */
  lemma FormsAreRead(prefix: string, x: string)
    ensures Documented("") && Documented("/") && !Misread(prefix, "") && !Misread(prefix, "/")
    ensures x != "" && x[|x| - 1] != '*' ==> Documented("/" + x) && !Misread(prefix, "/" + x)
    ensures Documented("/" + x + "/*") && (x != "" ==> !Misread(prefix, "/" + x + "/*"))
    ensures Documented("/*") && (Misread(prefix, "/*") <==> App(prefix) == "")
    ensures Documented("*" + x)
    ensures (forall b :: 0 < b < |x| && x[..b] == x[|x| - b..] ==> x[b] == '/') ==> !Misread(prefix, "*" + x)
  {
    hide App, Scan;
    assert ("*" + x)[1..] == x;
  }

  /** The slash in front of a pattern may be left out, except before a star. */
  lemma FormsWithoutSlash(app: string, x: string, uri: string)
    requires x != "" && x[0] != '*' && x[0] != '/'
    ensures Meaning(app, x, uri) == Meaning(app, "/" + x, uri)
  {
  }

  /** One slash is put in front of a web-app prefix that has none, and one is taken from its end. */
  lemma PrefixSpellings(name: string)
    ensures App("") == App("/") == ""
    ensures App("/" + name + "/") == "/" + name
    ensures name != "" && name[|name| - 1] != '/' ==> App("/" + name) == "/" + name
    ensures name != "" && name[0] != '/' ==> App(name) == App("/" + name) && App(name + "/") == "/" + name
  {
    assert ("/" + name + "/")[..|name| + 1] == "/" + name;
    assert "/" + (name + "/") == "/" + name + "/";
  }
}
