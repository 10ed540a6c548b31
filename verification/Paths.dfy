// Peer-supplied paths and manifests (aetherlink-proto manifest.rs): the one gate every
// name passes before it is joined to a local directory.

module Paths {
  import opened Base
  import opened Layout

  const MAX_COMPONENT_LEN: nat := 255
  const MAX_PATH_LEN: nat := 1024
  const MAX_FILES_PER_MANIFEST: nat := 20_000

  // ----- text ------------------------------------------------------------------------

  /** Length in UTF-8 bytes, which is what Rust's `len` counts. */
  function CharLen(c: char): (n: nat)
    ensures 1 <= n <= 4
  {
    if c < 0x80 as char then 1 else if c < 0x800 as char then 2 else if c < 0x1_0000 as char then 3 else 4
  }

  function ByteLen(s: string): nat {
    if s == "" then 0 else CharLen(s[0]) + ByteLen(s[1..])
  }

  /** `char::is_control`: the Unicode category Cc. */
  predicate IsControl(c: char) {
    c < 0x20 as char || 0x7F as char <= c < 0xA0 as char
  }

  /** `raw.as_bytes()[1] == b':'`: a second byte that is a colon can only follow a one-byte character. */
  predicate SecondByteIsColon(s: string) {
    |s| >= 2 && CharLen(s[0]) == 1 && s[1] == ':'
  }

  /** The UTF-8 encoding of one character. */
  function Utf8(c: char): (b: seq<nat>) {
    var x := c as int;
    if x < 0x80 then [x]
    else if x < 0x800 then [0xC0 + x / 64, 0x80 + x % 64]
    else if x < 0x1_0000 then [0xE0 + x / 4096, 0x80 + x / 64 % 64, 0x80 + x % 64]
    else [0xF0 + x / 262_144, 0x80 + x / 4096 % 64, 0x80 + x / 64 % 64, 0x80 + x % 64]
  }

  function AsBytes(s: string): seq<nat> {
    if s == "" then [] else Utf8(s[0]) + AsBytes(s[1..])
  }

  lemma {:induction false} ByteLenIsUtf8(s: string)
    ensures ByteLen(s) == |AsBytes(s)|
  {
    if s != "" { ByteLenIsUtf8(s[1..]); }
  }

  /** The drive-letter test looks at the second byte of the encoding, not at the second character. */
  lemma ColonIsSecondByte(s: string)
    ensures SecondByteIsColon(s) <==> |AsBytes(s)| >= 2 && AsBytes(s)[1] == 58
  {
    if s != "" {
      var first, rest := Utf8(s[0]), AsBytes(s[1..]);
      assert |first| == CharLen(s[0]);
      if |first| == 1 {
        assert AsBytes(s)[1..] == rest;
        if |s| >= 2 { assert rest[0] == Utf8(s[1])[0]; }
      } else {
        assert AsBytes(s)[1] == first[1] >= 0x80;
      }
    }
  }

  predicate SlashFree(s: string) { '/' !in s }

  /** `split('/')`: always at least one component. */
  function Split(s: string): (parts: seq<string>)
    ensures |parts| > 0
  {
    if s == "" then [""]
    else
      var rest := Split(s[1..]);
      if s[0] == '/' then [""] + rest else [[s[0]] + rest[0]] + rest[1..]
  }

  /** `join("/")`. */
  function Join(parts: seq<string>): string {
    if parts == [] then ""
    else if |parts| == 1 then parts[0]
    else parts[0] + "/" + Join(parts[1..])
  }

  lemma {:induction false} SplitIsSlashFree(s: string, i: nat)
    requires i < |Split(s)|
    ensures SlashFree(Split(s)[i])
  {
    if s != "" {
      var rest := Split(s[1..]);
      if s[0] == '/' {
        if i > 0 { SplitIsSlashFree(s[1..], i - 1); }
      } else {
        SplitIsSlashFree(s[1..], i);
      }
    }
  }

  lemma {:induction false} JoinInvertsSplit(s: string)
    ensures Join(Split(s)) == s
  {
    if s != "" {
      JoinInvertsSplit(s[1..]);
      var parts, rest := Split(s), Split(s[1..]);
      if s[0] == '/' {
        assert parts[1..] == rest;
        assert Join(parts) == "" + "/" + Join(rest);
      } else {
        assert parts[0] == [s[0]] + rest[0] && parts[1..] == rest[1..];
        if |rest| > 1 { assert Join(parts) == parts[0] + "/" + Join(rest[1..]); }
        assert Join(parts) == [s[0]] + Join(rest);
      }
    }
  }

  /** A slash-free component splits off whole. */
  lemma {:induction false} SplitAfter(c: string, tail: string)
    requires SlashFree(c)
    ensures Split(c + "/" + tail) == [c] + Split(tail)
    ensures Split(c) == [c]
  {
    if c == "" {
      assert c + "/" + tail == "/" + tail && ("/" + tail)[1..] == tail;
    } else {
      SplitAfter(c[1..], tail);
      var s := c + "/" + tail;
      assert s[0] == c[0] && s[1..] == c[1..] + "/" + tail;
      assert [c[0]] + c[1..] == c;
      assert ([c[1..]] + Split(tail))[1..] == Split(tail);
    }
  }

  lemma {:induction false} SplitInvertsJoin(parts: seq<string>)
    requires parts != [] && forall i :: 0 <= i < |parts| ==> SlashFree(parts[i])
    ensures Split(Join(parts)) == parts
  {
    if |parts| == 1 {
      SplitAfter(parts[0], "");
    } else {
      SplitInvertsJoin(parts[1..]);
      SplitAfter(parts[0], Join(parts[1..]));
      assert [parts[0]] + parts[1..] == parts;
    }
  }

  // ----- components ---------------------------------------------------------------------

  function UpperAscii(c: char): char {
    if 'a' <= c <= 'z' then c - 'a' + 'A' else c
  }

  function Uppered(s: string): string {
    if s == "" then "" else [UpperAscii(s[0])] + Uppered(s[1..])
  }

  /** What precedes the first dot. */
  function Stem(s: string): string {
    if s == "" || s[0] == '.' then "" else [s[0]] + Stem(s[1..])
  }

  const RESERVED: seq<string> := [
    "CON", "PRN", "AUX", "NUL", "COM1", "COM2", "COM3", "COM4", "COM5", "COM6", "COM7", "COM8", "COM9",
    "LPT1", "LPT2", "LPT3", "LPT4", "LPT5", "LPT6", "LPT7", "LPT8", "LPT9"]

  /** `is_reserved_device_name`: the stem, compared without regard to ASCII case. */
  predicate IsReserved(component: string) {
    exists k :: 0 <= k < |RESERVED| && RESERVED[k] == Uppered(Stem(component))
  }

  /** The stem is what precedes the first dot, so an extension never hides a device name. */
  lemma {:induction false} StemIgnoresExtension(stem: string, rest: string)
    requires '.' !in stem
    ensures Stem(stem) == stem && Stem(stem + "." + rest) == stem
  {
    if stem == "" {
      assert stem + "." + rest == "." + rest;
    } else {
      StemIgnoresExtension(stem[1..], rest);
      assert (stem + "." + rest)[1..] == stem[1..] + "." + rest;
      assert [stem[0]] + stem[1..] == stem;
    }
  }

  /** A reserved name stays reserved in any case and with any extension. */
  lemma ReservedInAnyCase(stem: string, other: string, rest: string)
    requires '.' !in stem && '.' !in other && Uppered(stem) == Uppered(other)
    ensures IsReserved(stem) <==> IsReserved(other + "." + rest)
  {
    StemIgnoresExtension(stem, rest);
    StemIgnoresExtension(other, rest);
  }

  predicate Skipped(c: string) { c == "" || c == "." }

  /** The checks on one component that is not skipped, in the order they are made. */
  function ComponentFault(c: string): (f: Option<PathFault>) {
    if c == ".." then Some(Traversal)
    else if ByteLen(c) > MAX_COMPONENT_LEN then Some(OverLongComponent)
    else if c != "" && (c[|c| - 1] == '.' || c[|c| - 1] == ' ') then Some(TrailingDotOrSpace)
    else if IsReserved(c) then Some(ReservedName)
    else None
  }

  /** The components a path names: what is neither empty nor `.`. */
  function Components(parts: seq<string>): (kept: seq<string>)
    ensures forall i :: 0 <= i < |kept| ==> !Skipped(kept[i]) && kept[i] in parts
  {
    if parts == [] then []
    else if Skipped(parts[0]) then Components(parts[1..])
    else [parts[0]] + Components(parts[1..])
  }

  /** Exactly the empty components and `.` are dropped; all others stay, in order. */
  lemma {:induction false} ComponentsAre(a: seq<string>, b: seq<string>, c: string)
    ensures Components(a + b) == Components(a) + Components(b)
    ensures Components([c]) == if c == "" || c == "." then [] else [c]
  {
    assert [c][1..] == [];
    if a == [] {
      assert a + b == b;
    } else {
      ComponentsAre(a[1..], b, c);
      assert (a + b)[1..] == a[1..] + b;
    }
  }

  /** The first fault among the components. */
  function FirstFault(parts: seq<string>): (f: Option<PathFault>)
    ensures f.None? <==> forall i :: 0 <= i < |parts| ==> Skipped(parts[i]) || ComponentFault(parts[i]).None?
  {
    if parts == [] then None
    else if !Skipped(parts[0]) && ComponentFault(parts[0]).Some? then ComponentFault(parts[0])
    else
      assert forall i :: 0 < i < |parts| ==> parts[i] == parts[1..][i - 1];
      FirstFault(parts[1..])
  }

  // ----- whole paths ------------------------------------------------------------------------

  predicate HasControl(s: string) { exists i :: 0 <= i < |s| && IsControl(s[i]) }

  /** The checks on the raw string, in the order they are made. */
  function RawFault(raw: string): Option<PathFault> {
    if raw == "" then Some(EmptyPath)
    else if ByteLen(raw) > MAX_PATH_LEN then Some(OverLong)
    else if 0 as char in raw then Some(HasNul)
    else if HasControl(raw) then Some(ControlCharacter)
    else if '\\' in raw then Some(Backslash)
    else if raw[0] == '/' then Some(Absolute)
    else if SecondByteIsColon(raw) then Some(DriveLetter)
    else None
  }

  /** What `sanitize_relative_path` answers. */
  function Sanitized(raw: string): Result<string, WireError> {
    var parts := Split(raw);
    if RawFault(raw).Some? then Err(UnsafePath(raw, RawFault(raw).value))
    else if FirstFault(parts).Some? then Err(UnsafePath(raw, FirstFault(parts).value))
    else if Components(parts) == [] then Err(UnsafePath(raw, ResolvesToNothing))
    else Ok(Join(Components(parts)))
  }

  /** The loop over the components: stops at the first fault, keeps what is not skipped. */
  method SanitizeRelativePath(raw: string) returns (r: Result<string, WireError>)
    ensures r == Sanitized(raw)
  {
    hide ComponentFault, Split, Join;
    var fault := RawFault(raw);
    if fault.Some? { return Err(UnsafePath(raw, fault.value)); }
    var split := Split(raw);
    var parts: seq<string> := [];
    for i := 0 to |split|
      invariant parts + Components(split[i..]) == Components(split)
      invariant FirstFault(split[i..]) == FirstFault(split)
    {
      var c := split[i];
      assert split[i..][1..] == split[i + 1..] && split[i..][0] == c;
      if !Skipped(c) {
        if ComponentFault(c).Some? { return Err(UnsafePath(raw, ComponentFault(c).value)); }
        parts := parts + [c];
      }
    }
    assert split[|split|..] == [] && parts + [] == parts;
    if parts == [] { return Err(UnsafePath(raw, ResolvesToNothing)); }
    return Ok(Join(parts));
  }

  // ----- what an accepted path is -----------------------------------------------------------

  /** No control character (U+0000 to U+001F, U+007F to U+009F) and no backslash. */
  ghost predicate Clean(s: string) {
    forall i :: 0 <= i < |s| ==> 32 <= s[i] as int && !(127 <= s[i] as int <= 159) && s[i] != '\\'
  }

  /** The name up to its first dot, or all of it, is `n` characters long. */
  ghost predicate StemEnds(c: string, n: nat) {
    n <= |c| && '.' !in c[..n] && (n < |c| ==> c[n] == '.')
  }

  /** `s` is the word `w` in any mixture of ASCII cases; `w` is in upper case. */
  ghost predicate AnyCase(s: string, w: string) {
    |s| == |w| && forall i :: 0 <= i < |s| ==> s[i] == w[i] || ('A' <= w[i] <= 'Z' && s[i] as int == w[i] as int + 32)
  }

  /** A Windows device name, whatever its case or extension: CON, PRN, AUX, NUL, and COM or LPT with a
      digit from 1 to 9. */
  ghost predicate DeviceName(c: string) {
    exists n: nat :: StemEnds(c, n) && DeviceStem(c[..n])
  }

  ghost predicate DeviceStem(s: string) {
    || AnyCase(s, "CON") || AnyCase(s, "PRN") || AnyCase(s, "AUX") || AnyCase(s, "NUL")
    || (|s| == 4 && (AnyCase(s[..3], "COM") || AnyCase(s[..3], "LPT")) && '1' <= s[3] <= '9')
  }

  /** A component fit to be a file name: not empty, not a dot name, clean, short enough, not ending in a
      dot or a space, and not a device name. */
  ghost predicate Legal(c: string) {
    && c != "" && c != "." && c != ".." && SlashFree(c) && Clean(c) && ByteLen(c) <= 255
    && c[|c| - 1] != '.' && c[|c| - 1] != ' ' && !DeviceName(c)
  }

  lemma {:induction false} StemIsPrefix(c: string)
    ensures StemEnds(c, |Stem(c)|) && c[..|Stem(c)|] == Stem(c)
  {
    if c != "" && c[0] != '.' { StemIsPrefix(c[1..]); }
  }

  lemma {:induction false} UpperedAt(s: string)
    ensures |Uppered(s)| == |s| && forall i :: 0 <= i < |s| ==> Uppered(s)[i] == UpperAscii(s[i])
  {
    if s != "" { UpperedAt(s[1..]); }
  }

  lemma UpperAsciiIs(c: char, u: char)
    requires !('a' <= u <= 'z')
    ensures UpperAscii(c) == u <==> c == u || ('A' <= u <= 'Z' && c as int == u as int + 32)
  {
  }

  lemma UpperedIs(s: string, w: string)
    requires forall i :: 0 <= i < |w| ==> !('a' <= w[i] <= 'z')
    ensures Uppered(s) == w <==> AnyCase(s, w)
  {
    hide Uppered, UpperAscii;
    UpperedAt(s);
    if |s| == |w| {
      forall i | 0 <= i < |s|
        ensures Uppered(s)[i] == w[i] <==> s[i] == w[i] || ('A' <= w[i] <= 'Z' && s[i] as int == w[i] as int + 32)
      {
        UpperAsciiIs(s[i], w[i]);
      }
    }
  }

  lemma OneStem(c: string, m: nat, n: nat)
    requires StemEnds(c, m) && StemEnds(c, n)
    ensures m == n
  {
    if m < n { NoDotBefore(c, n, m); }
    if n < m { NoDotBefore(c, m, n); }
  }

  lemma NoDotBefore(c: string, n: nat, k: nat)
    requires StemEnds(c, n) && k < n
    ensures c[k] != '.'
  {
    assert c[..n][k] == c[k];
  }

  /** The list of reserved names is exactly the device names. */
  lemma ReservedIsDevice(c: string)
    ensures IsReserved(c) <==> DeviceName(c)
  {
    hide DeviceStem, Uppered, IsReserved, Stem;
    StemIsPrefix(c);
    ReservedStem(c);
    if DeviceName(c) {
      var n: nat :| StemEnds(c, n) && DeviceStem(c[..n]);
      OneStem(c, n, |Stem(c)|);
    }
  }

  lemma ReservedStem(c: string)
    ensures IsReserved(c) <==> DeviceStem(Stem(c))
  {
    hide Stem, Uppered, AnyCase;
    var s := Stem(c);
    forall k | 0 <= k < |RESERVED|
      ensures RESERVED[k] == Uppered(s) <==> AnyCase(s, RESERVED[k])
    {
      UpperedIs(s, RESERVED[k]);
    }
    FourLetters(s);
  }

  lemma WordAndDigit(s: string, w: string, d: char)
    requires |w| == 3 && '1' <= d <= '9'
    ensures AnyCase(s, w + [d]) <==> |s| == 4 && AnyCase(s[..3], w) && s[3] == d
  {
    var v := w + [d];
    assert v[..3] == w && v[3] == d;
    if |s| == 4 {
      assert forall i :: 0 <= i < 3 ==> s[..3][i] == s[i] && v[i] == w[i];
    }
  }

  function Digit(k: nat): char
    requires k < 9
  {
    '1' + k as char
  }

  lemma ReservedWords(k: nat)
    requires k < 9
    ensures RESERVED[4 + k] == "COM" + [Digit(k)] && RESERVED[13 + k] == "LPT" + [Digit(k)]
  {
    assert Digit(0) == '1' && Digit(1) == '2' && Digit(2) == '3' && Digit(3) == '4' && Digit(4) == '5';
    assert Digit(5) == '6' && Digit(6) == '7' && Digit(7) == '8' && Digit(8) == '9';
  }

  lemma FourLetters(s: string)
    ensures (exists k :: 0 <= k < |RESERVED| && AnyCase(s, RESERVED[k])) <==> DeviceStem(s)
  {
    hide AnyCase;
    if k :| 0 <= k < |RESERVED| && AnyCase(s, RESERVED[k]) { ListedIsDevice(s, k); }
    if DeviceStem(s) {
      var k := DeviceIsListed(s);
      assert AnyCase(s, RESERVED[k]);
    }
  }

  lemma ListedIsDevice(s: string, k: nat)
    requires k < |RESERVED| && AnyCase(s, RESERVED[k])
    ensures DeviceStem(s)
  {
    hide AnyCase;
    if 4 <= k < 13 {
      ReservedWords(k - 4);
      WordAndDigit(s, "COM", Digit(k - 4));
    } else if 13 <= k {
      ReservedWords(k - 13);
      WordAndDigit(s, "LPT", Digit(k - 13));
    }
  }

  lemma DeviceIsListed(s: string) returns (k: nat)
    requires DeviceStem(s)
    ensures k < |RESERVED| && AnyCase(s, RESERVED[k])
  {
    hide AnyCase;
    if AnyCase(s, "CON") {
      k := 0;
    } else if AnyCase(s, "PRN") {
      k := 1;
    } else if AnyCase(s, "AUX") {
      k := 2;
    } else if AnyCase(s, "NUL") {
      k := 3;
    } else {
      var d := s[3] as int - '1' as int;
      ReservedWords(d);
      WordAndDigit(s, "COM", s[3]);
      WordAndDigit(s, "LPT", s[3]);
      k := if AnyCase(s[..3], "COM") then 4 + d else 13 + d;
    }
  }

  /** The checks on a component let through exactly the legal ones. */
  lemma LegalIff(c: string)
    requires !Skipped(c) && SlashFree(c) && Clean(c)
    ensures Legal(c) <==> ComponentFault(c).None?
  {
    hide IsReserved, DeviceName, ByteLen, Clean;
    ReservedIsDevice(c);
  }

  lemma {:induction false} CleanJoin(parts: seq<string>)
    ensures Clean(Join(parts)) <==> forall i :: 0 <= i < |parts| ==> Clean(parts[i])
  {
    if |parts| > 1 {
      CleanJoin(parts[1..]);
      var a, b := parts[0], Join(parts[1..]);
      CleanConcat(a, b);
      assert forall i :: 0 < i < |parts| ==> parts[i] == parts[1..][i - 1];
      assert (forall i :: 0 <= i < |parts[1..]| ==> Clean(parts[1..][i]))
        <==> (forall i :: 0 < i < |parts| ==> Clean(parts[i])) by {
        forall i | 0 <= i < |parts[1..]| ensures parts[1..][i] == parts[i + 1] { }
      }
    }
  }

  lemma CleanConcat(a: string, b: string)
    ensures Clean(a + "/" + b) <==> Clean(a) && Clean(b)
  {
    var s := a + "/" + b;
    assert forall i :: 0 <= i < |a| ==> s[i] == a[i];
    assert forall i :: 0 <= i < |b| ==> b[i] == s[|a| + 1 + i];
    assert s[|a|] == '/';
  }

  lemma {:induction false} ByteLenConcat(a: string, b: string)
    ensures ByteLen(a + b) == ByteLen(a) + ByteLen(b)
  {
    if a == "" {
      assert a + b == b;
    } else {
      ByteLenConcat(a[1..], b);
      assert (a + b)[1..] == a[1..] + b;
    }
  }

  lemma ByteLenSlash(a: string, b: string)
    ensures ByteLen(a + "/" + b) == ByteLen(a) + 1 + ByteLen(b)
  {
    ByteLenConcat(a, "/");
    ByteLenConcat(a + "/", b);
    assert "/"[1..] == "";
  }

  /** Dropping components never lengthens a path. */
  lemma {:induction false} DroppingShortens(parts: seq<string>)
    ensures ByteLen(Join(Components(parts))) <= ByteLen(Join(parts))
  {
    hide ByteLen, Skipped;
    if parts != [] {
      var rest := parts[1..];
      DroppingShortens(rest);
      ByteLenEmpty();
      if rest != [] { ByteLenSlash(parts[0], Join(rest)); }
      if Components(rest) != [] {
        ByteLenSlash(parts[0], Join(Components(rest)));
        assert ([parts[0]] + Components(rest))[1..] == Components(rest);
      }
    }
  }

  lemma ByteLenEmpty()
    ensures ByteLen("") == 0
  {
  }

  /** An accepted path: its output splits back into exactly the components the input names, each of
      them legal; it is relative, clean and no longer than allowed. */
  lemma AcceptedIsSafe(raw: string)
    requires Sanitized(raw).Ok?
    ensures
      var out := Sanitized(raw).value;
      && Split(out) == Components(Split(raw))
      && (forall i :: 0 <= i < |Split(out)| ==> Legal(Split(out)[i]))
      && out != "" && out[0] != '/' && Clean(out) && ByteLen(out) <= MAX_PATH_LEN
  {
    hide ByteLen, IsReserved;
    var parts := Split(raw);
    var kept := Components(parts);
    JoinInvertsSplit(raw);
    CleanRaw(raw);
    CleanJoin(parts);
    forall i | 0 <= i < |kept|
      ensures Legal(kept[i])
    {
      var j :| 0 <= j < |parts| && parts[j] == kept[i];
      SplitIsSlashFree(raw, j);
      LegalIff(kept[i]);
    }
    SplitInvertsJoin(kept);
    CleanJoin(kept);
    DroppingShortens(parts);
    JoinStarts(kept);
  }

  lemma CleanRaw(raw: string)
    requires RawFault(raw).None?
    ensures Clean(raw)
  {
    assert forall i :: 0 <= i < |raw| ==> raw[i] in raw;
  }

  lemma JoinStarts(parts: seq<string>)
    requires parts != [] && parts[0] != ""
    ensures Join(parts) != "" && Join(parts)[0] == parts[0][0]
  {
  }

  /** Exactly which paths are accepted. */
  lemma AcceptsExactly(raw: string)
    ensures Sanitized(raw).Ok? <==>
            && raw != "" && ByteLen(raw) <= 1024 && Clean(raw) && raw[0] != '/' && !SecondByteIsColon(raw)
            && (forall i :: 0 <= i < |Split(raw)| ==> Skipped(Split(raw)[i]) || Legal(Split(raw)[i]))
            && (exists i :: 0 <= i < |Split(raw)| && !Skipped(Split(raw)[i]))
  {
    hide ByteLen, Split, Clean, Legal, ComponentFault, Skipped, RawFault;
    var parts := Split(raw);
    NoFaultIff(raw);
    if Clean(raw) {
      JoinInvertsSplit(raw);
      CleanJoin(parts);
      forall i | 0 <= i < |parts| && !Skipped(parts[i])
        ensures Legal(parts[i]) <==> ComponentFault(parts[i]).None?
      {
        SplitIsSlashFree(raw, i);
        LegalIff(parts[i]);
      }
    }
    SomeKept(parts);
  }

  lemma NoFaultIff(raw: string)
    ensures RawFault(raw).None? <==>
            raw != "" && ByteLen(raw) <= MAX_PATH_LEN && Clean(raw) && raw[0] != '/' && !SecondByteIsColon(raw)
  {
    hide ByteLen;
    assert forall i :: 0 <= i < |raw| ==> raw[i] in raw;
    assert IsControl(0 as char);
  }

  lemma {:induction false} SomeKept(parts: seq<string>)
    ensures Components(parts) != [] <==> exists i :: 0 <= i < |parts| && !Skipped(parts[i])
  {
    hide Skipped;
    if parts != [] && Skipped(parts[0]) {
      SomeKept(parts[1..]);
      assert forall i :: 0 < i < |parts| ==> parts[i] == parts[1..][i - 1];
      if i :| 0 <= i < |parts[1..]| && !Skipped(parts[1..][i]) { assert !Skipped(parts[i + 1]); }
    }
  }

  /** Two accepted paths come out the same exactly when they name the same components. */
  lemma SameOutputIffSameComponents(a: string, b: string)
    requires Sanitized(a).Ok? && Sanitized(b).Ok?
    ensures Sanitized(a) == Sanitized(b) <==> Components(Split(a)) == Components(Split(b))
  {
    hide Split, Components, Join, RawFault, FirstFault, Legal;
    AcceptedIsSafe(a);
    AcceptedIsSafe(b);
  }

  lemma {:induction false} KeptAreKept(parts: seq<string>)
    requires forall i :: 0 <= i < |parts| ==> !Skipped(parts[i])
    ensures Components(parts) == parts
  {
    if parts != [] { KeptAreKept(parts[1..]); }
  }

  /** Sanitizing an output again gives the same string exactly when its second byte is not a colon. */
  lemma IdempotentIff(raw: string)
    requires Sanitized(raw).Ok?
    ensures
      var out := Sanitized(raw).value;
      Sanitized(out) == Ok(out) <==> !SecondByteIsColon(out)
  {
    hide Split, ByteLen, IsReserved, Join, ComponentFault;
    AcceptedIsSafe(raw);
    var out := Sanitized(raw).value;
    NoFaultIff(out);
    KeptAreKept(Split(out));
  }

  /** The exception is real: `./C:/x` is accepted, and its output `C:/x` is not. */
  lemma DriveLetterSlipsThrough()
    ensures Sanitized("./C:/x") == Ok("C:/x")
    ensures Sanitized("C:/x").Err?
  {
    hide RawFault, FirstFault, Components, Join, Split;
    DriveSplits();
    KeepsTail();
    ShortPath();
    ShortComponents();
  }

  lemma DriveSplits()
    ensures Split("./C:/x") == [".", "C:", "x"]
  {
    hide Split;
    SplitAfter(".", "C:/x");
    SplitAfter("C:", "x");
    SplitAfter("x", "");
    assert "." + "/" + "C:/x" == "./C:/x" && "C:" + "/" + "x" == "C:/x";
  }

  lemma KeepsTail()
    ensures Components([".", "C:", "x"]) == ["C:", "x"]
    ensures Join(["C:", "x"]) == "C:/x"
  {
    var parts := [".", "C:", "x"];
    assert parts[1..] == ["C:", "x"] && parts[1..][1..] == ["x"] && ["x"][1..] == [];
    assert Components(["x"]) == ["x"] && Components(["C:", "x"]) == ["C:", "x"];
  }

  lemma ShortPath()
    ensures RawFault("./C:/x").None? && RawFault("C:/x").Some?
  {
    NoFaultIff("./C:/x");
    NoFaultIff("C:/x");
  }

  lemma ShortComponents()
    ensures FirstFault([".", "C:", "x"]).None?
  {
  }

  // ----- manifests --------------------------------------------------------------------------------

  datatype Entry = Entry(fileId: u64, path: string)

  /** The entries of a manifest that may be accepted: distinct ids, safe paths, distinct outputs. */
  ghost predicate Admissible(files: seq<Entry>, n: nat)
    requires n <= |files|
  {
    && (forall i :: 0 <= i < n ==> Sanitized(files[i].path).Ok?)
    && (forall i, j :: 0 <= i < j < n ==> files[i].fileId != files[j].fileId)
    && (forall i, j :: 0 <= i < j < n ==> Sanitized(files[i].path) != Sanitized(files[j].path))
  }

  ghost predicate Seen(files: seq<Entry>, n: nat, ids: set<u64>, paths: set<string>, out: seq<string>)
    requires n <= |files|
  {
    && |out| == n && Admissible(files, n)
    && (forall id :: id in ids <==> exists i :: 0 <= i < n && files[i].fileId == id)
    && (forall p :: p in paths <==> exists i :: 0 <= i < n && out[i] == p)
    && (forall i :: 0 <= i < n ==> Sanitized(files[i].path) == Ok(out[i]))
  }

  lemma SeenGrows(files: seq<Entry>, n: nat, ids: set<u64>, paths: set<string>, out: seq<string>, path: string)
    requires n < |files| && Seen(files, n, ids, paths, out)
    requires files[n].fileId !in ids && Sanitized(files[n].path) == Ok(path) && path !in paths
    ensures Seen(files, n + 1, ids + {files[n].fileId}, paths + {path}, out + [path])
  {
    hide Sanitized;
    var out' := out + [path];
    assert out'[n] == path && forall i :: 0 <= i < n ==> out'[i] == out[i];
    forall i, j | 0 <= i < j < n + 1
      ensures Sanitized(files[i].path) != Sanitized(files[j].path)
    {
      if j == n { assert out[i] in paths; }
    }
    forall p
      ensures p in paths + {path} <==> exists i :: 0 <= i < n + 1 && out'[i] == p
    {
      if p in paths {
        var i :| 0 <= i < n && out[i] == p;
        assert out'[i] == p;
      }
    }
  }

  /** A repeated id, an unsafe path or a repeated output makes the manifest inadmissible. */
  lemma SeenRefuses(files: seq<Entry>, n: nat, ids: set<u64>, paths: set<string>, out: seq<string>)
    requires n < |files| && Seen(files, n, ids, paths, out)
    requires files[n].fileId in ids || Sanitized(files[n].path).Err? || Sanitized(files[n].path).value in paths
    ensures !Admissible(files, |files|)
  {
    hide Sanitized;
    if files[n].fileId in ids {
      var i :| 0 <= i < n && files[i].fileId == files[n].fileId;
    } else if Sanitized(files[n].path).Ok? {
      var i :| 0 <= i < n && out[i] == Sanitized(files[n].path).value;
      assert Sanitized(files[i].path) == Sanitized(files[n].path);
    }
  }

  /** What is wrong with entry `n`, given those before it, in the order the checks are made. */
  ghost function EntryFault(files: seq<Entry>, n: nat): Option<WireError>
    requires n < |files|
  {
    var f := files[n];
    if exists i :: 0 <= i < n && files[i].fileId == f.fileId then Some(DuplicateFileId(f.fileId))
    else if Sanitized(f.path).Err? then Some(Sanitized(f.path).error)
    else if exists i :: 0 <= i < n && Sanitized(files[i].path) == Sanitized(f.path)
      then Some(DuplicatePath(Sanitized(f.path).value))
    else None
  }

  /** The fault of the first faulty entry from `n` on. */
  ghost function FirstEntryFault(files: seq<Entry>, n: nat): Option<WireError>
    requires n <= |files|
    decreases |files| - n
  {
    if n == |files| then None
    else if EntryFault(files, n).Some? then EntryFault(files, n)
    else FirstEntryFault(files, n + 1)
  }

  /** Why a manifest is refused: its size, then its chunk size, then its first faulty entry. */
  ghost function ManifestFault(chunkSize: u32, files: seq<Entry>): Option<WireError> {
    if |files| > MAX_FILES_PER_MANIFEST then Some(ManifestTooLarge(|files|))
    else if NewLayout(0, chunkSize).Err? then Some(NewLayout(0, chunkSize).error)
    else FirstEntryFault(files, 0)
  }

  /** The two sets decide what is wrong with the next entry. */
  lemma SeenDecides(files: seq<Entry>, n: nat, ids: set<u64>, paths: set<string>, out: seq<string>)
    requires n < |files| && Seen(files, n, ids, paths, out)
    ensures
      var f := files[n];
      EntryFault(files, n) ==
        if f.fileId in ids then Some(DuplicateFileId(f.fileId))
        else if Sanitized(f.path).Err? then Some(Sanitized(f.path).error)
        else if Sanitized(f.path).value in paths then Some(DuplicatePath(Sanitized(f.path).value))
        else None
  {
    hide Sanitized;
    var f := files[n];
    if Sanitized(f.path).Ok? {
      var p := Sanitized(f.path).value;
      if p in paths {
        var i :| 0 <= i < n && out[i] == p;
        assert Sanitized(files[i].path) == Sanitized(f.path);
      }
      if i :| 0 <= i < n && Sanitized(files[i].path) == Sanitized(f.path) { assert out[i] == p; }
    }
  }

  /** `Manifest::validate`: accepts exactly the manifests within the limits whose ids, paths and
      outputs are in order, and returns the outputs in file order; a refusal carries the first fault. */
  method Validate(chunkSize: u32, files: seq<Entry>) returns (r: Result<seq<string>, WireError>)
    ensures r.Ok? <==> |files| <= 20_000 && NewLayout(0, chunkSize).Ok? && Admissible(files, |files|)
    ensures r.Ok? ==> |r.value| == |files|
    ensures r.Ok? ==> forall i :: 0 <= i < |files| ==> Sanitized(files[i].path) == Ok(r.value[i])
    ensures ManifestFault(chunkSize, files) == if r.Ok? then None else Some(r.error)
  {
    hide Sanitized, NewLayout, Seen, EntryFault, Admissible;
    if |files| > MAX_FILES_PER_MANIFEST { return Err(ManifestTooLarge(|files|)); }
    var layout := NewLayout(0, chunkSize);
    if layout.Err? { return Err(layout.error); }
    var ids: set<u64>, paths: set<string>, out: seq<string> := {}, {}, [];
    NothingSeen(files);
    for n := 0 to |files|
      invariant Seen(files, n, ids, paths, out) && FirstEntryFault(files, 0) == FirstEntryFault(files, n)
    {
      var f := files[n];
      SeenDecides(files, n, ids, paths, out);
      if f.fileId in ids {
        SeenRefuses(files, n, ids, paths, out);
        return Err(DuplicateFileId(f.fileId));
      }
      var path := SanitizeRelativePath(f.path);
      if path.Err? {
        SeenRefuses(files, n, ids, paths, out);
        return Err(path.error);
      }
      if path.value in paths {
        SeenRefuses(files, n, ids, paths, out);
        return Err(DuplicatePath(path.value));
      }
      SeenGrows(files, n, ids, paths, out, path.value);
      ids, paths, out := ids + {f.fileId}, paths + {path.value}, out + [path.value];
    }
    SeenAll(files, ids, paths, out);
    return Ok(out);
  }

  lemma NothingSeen(files: seq<Entry>)
    ensures Seen(files, 0, {}, {}, [])
  {
  }

  lemma SeenAll(files: seq<Entry>, ids: set<u64>, paths: set<string>, out: seq<string>)
    requires Seen(files, |files|, ids, paths, out)
    ensures Admissible(files, |files|) && |out| == |files|
    ensures forall i :: 0 <= i < |files| ==> Sanitized(files[i].path) == Ok(out[i])
  {
    hide Sanitized;
  }

  /** In a validated manifest no two entries name the same components, however they are spelled. */
  lemma AdmissibleNamesDiffer(files: seq<Entry>, i: nat, j: nat)
    requires Admissible(files, |files|) && i < j < |files|
    ensures Components(Split(files[i].path)) != Components(Split(files[j].path))
  {
    hide Sanitized, Components, Split;
    SameOutputIffSameComponents(files[i].path, files[j].path);
  }
}
