/** Reading `/proc/self/mountinfo`, against the format in section 3.5 of Linux Documentation/filesystems/proc.rst. */
module MountInfo {
  import opened Common
  import opened Splitting

  // ---------------------------------------------------------------- octal escapes

  predicate Special(c: char) {
    c == ' ' || c == '\t' || c == '\n' || c == '\\'
  }

  /** How the kernel prints one character of a path. */
  function EscapeChar(c: char): string {
    if c == ' ' then "\\040"
    else if c == '\t' then "\\011"
    else if c == '\n' then "\\012"
    else if c == '\\' then "\\134"
    else [c]
  }

  function Escape(s: string): string {
    if s == "" then "" else EscapeChar(s[0]) + Escape(s[1..])
  }

  predicate Plain(s: string) {
    forall i | 0 <= i < |s| :: !Special(s[i])
  }

  predicate IsOctal(c: char) {
    '0' <= c <= '7'
  }

  function OctalDigit(c: char): (n: nat)
    requires IsOctal(c)
    ensures n < 8
  {
    (c as int) - ('0' as int)
  }

  /** `u32::from_str_radix(digits, 8)` on three characters; it also takes a leading plus sign. */
  function ParseOctal(digits: string): (r: Option<nat>)
    ensures r.Some? ==> r.value < 512
  {
    if |digits| != 3 || !IsOctal(digits[1]) || !IsOctal(digits[2]) then None
    else if IsOctal(digits[0]) then
      Some(OctalDigit(digits[0]) * 64 + OctalDigit(digits[1]) * 8 + OctalDigit(digits[2]))
    else if digits[0] == '+' then Some(OctalDigit(digits[1]) * 8 + OctalDigit(digits[2]))
    else None
  }

  /** A backslash and three octal digits are one character; any other backslash stands for itself. */
  function Unescape(s: string): string {
    if s == "" then ""
    else if s[0] != '\\' then [s[0]] + Unescape(s[1..])
    else if |s| < 4 || ParseOctal(s[1..4]).None? then "\\" + Unescape(s[1..])
    else [ParseOctal(s[1..4]).value as char] + Unescape(s[4..])
  }

  lemma UnescapeStep(s: string, i: nat)
    requires i < |s|
    ensures s[i] != '\\' ==> Unescape(s[i..]) == [s[i]] + Unescape(s[i + 1..])
    ensures s[i] == '\\' && (i + 4 > |s| || ParseOctal(s[i + 1..i + 4]).None?) ==>
              Unescape(s[i..]) == "\\" + Unescape(s[i + 1..])
    ensures s[i] == '\\' && i + 4 <= |s| && ParseOctal(s[i + 1..i + 4]).Some? ==>
              Unescape(s[i..]) == [ParseOctal(s[i + 1..i + 4]).value as char] + Unescape(s[i + 4..])
  {
    var rest := s[i..];
    assert rest[1..] == s[i + 1..];
    if i + 4 <= |s| {
      assert rest[1..4] == s[i + 1..i + 4] && rest[4..] == s[i + 4..];
    }
  }

  /**
   Text up to a backslash stands as it is; then three octal digits are one character, and else the
   backslash stands.
   */
  lemma {:induction false} UnescapeAtBackslash(a: string, b: string)
    requires '\\' !in a
    ensures Unescape(a) == a
    ensures Unescape(a + "\\" + b) ==
            a + if |b| >= 3 && ParseOctal(b[..3]).Some? then [ParseOctal(b[..3]).value as char] + Unescape(b[3..])
                else "\\" + Unescape(b)
  {
    var s := a + "\\" + b;
    if a == "" {
      assert s[1..] == b && (|b| >= 3 ==> s[1..4] == b[..3] && s[4..] == b[3..]);
    } else {
      assert s[1..] == a[1..] + "\\" + b;
      UnescapeAtBackslash(a[1..], b);
    }
  }

  lemma Assoc(a: string, b: string, c: string)
    ensures (a + b) + c == a + (b + c)
  {
  }

  /** `unescape_octal`. */
  method UnescapeOctal(s: string) returns (out: string)
    ensures out == Unescape(s)
  {
    out := "";
    var i := 0;
    assert s[0..] == s;
    while i < |s|
      invariant 0 <= i <= |s| && out + Unescape(s[i..]) == Unescape(s)
    {
      UnescapeStep(s, i);
      var piece, next := [s[i]], i + 1;
      if s[i] == '\\' && i + 4 <= |s| {
        var decoded := ParseOctal(s[i + 1..i + 4]);
        if decoded.Some? {
          piece, next := [decoded.value as char], i + 4;
        }
      }
      Assoc(out, piece, Unescape(s[next..]));
      out := out + piece;
      i := next;
    }
    assert s[|s|..] == "";
  }

  lemma EscapedChar(c: char, rest: string)
    ensures Unescape(EscapeChar(c) + rest) == [c] + Unescape(rest)
  {
    var s := EscapeChar(c) + rest;
    if Special(c) {
      assert |s| >= 4 && s[0] == '\\' && s[1..4] == EscapeChar(c)[1..] && s[4..] == rest;
      assert OctalDigit('0') == 0 && OctalDigit('1') == 1 && OctalDigit('2') == 2 && OctalDigit('3') == 3
          && OctalDigit('4') == 4;
      assert ' ' as int == 32 && '\t' as int == 9 && '\n' as int == 10 && '\\' as int == 92;
      assert ParseOctal(s[1..4]) == Some(c as int);
    } else {
      assert s == [c] + rest && s[1..] == rest;
    }
  }

  /** Escaping is undone for every string. */
  lemma {:induction false} EscapeRoundTrip(s: string)
    ensures Unescape(Escape(s)) == s
    decreases |s|
  {
    if s != "" {
      EscapedChar(s[0], Escape(s[1..]));
      EscapeRoundTrip(s[1..]);
    }
  }

  lemma {:induction false} EscapeHides(s: string)
    ensures ' ' !in Escape(s) && '\n' !in Escape(s)
    decreases |s|
  {
    if s != "" {
      EscapeHides(s[1..]);
    }
  }

  /** Escaping changes a string exactly if it holds one of the four characters. */
  lemma {:induction false} EscapeChanges(s: string)
    ensures |Escape(s)| >= |s|
    ensures Escape(s) == s <==> Plain(s)
    decreases |s|
  {
    if s != "" {
      EscapeChanges(s[1..]);
      assert s == [s[0]] + s[1..];
      assert Special(s[0]) ==> |EscapeChar(s[0])| == 4;
      assert !Special(s[0]) ==> Escape(s)[1..] == Escape(s[1..]) && Escape(s)[0] == s[0];
      assert Plain(s) <==> !Special(s[0]) && Plain(s[1..]);
    }
  }

  // ---------------------------------------------------------------- splitting

  const SEPARATOR := " - "

  predicate SeparatorAt(s: string, i: nat) {
    i + 3 <= |s| && s[i] == ' ' && s[i + 1] == '-' && s[i + 2] == ' '
  }

  /** `split_once(" - ")`: the first place the separator occurs. */
  function FindSeparator(s: string): (r: Option<nat>)
    ensures r.Some? ==> SeparatorAt(s, r.value)
  {
    if |s| < 3 then None
    else if SeparatorAt(s, 0) then Some(0)
    else match FindSeparator(s[1..]) case Some(i) => Some(i + 1) case None => None
  }

  lemma {:induction false} FirstSeparator(s: string, n: nat)
    requires SeparatorAt(s, n) && forall i: nat | i < n :: !SeparatorAt(s, i)
    ensures FindSeparator(s) == Some(n)
    decreases n
  {
    if n > 0 {
      assert !SeparatorAt(s, 0);
      assert SeparatorAt(s[1..], n - 1);
      forall i: nat | i < n - 1 ensures !SeparatorAt(s[1..], i) {
        assert !SeparatorAt(s, i + 1);
      }
      FirstSeparator(s[1..], n - 1);
    }
  }

  // ---------------------------------------------------------------- one line

  datatype MountEntry = MountEntry(
    mountpoint: string, fstype: string, source: string, options: seq<string>, superOptions: seq<string>)

  /** `parse_mountinfo_line`. */
  function ParseLine(line: string): Option<MountEntry> {
    match FindSeparator(line)
    case None => None
    case Some(at) =>
      var fields, rest := Split(line[..at], ' '), Split(line[at + 3..], ' ');
      if |fields| < 5 then None
      else Some(MountEntry(
        Unescape(fields[4]),
        rest[0],
        if |rest| > 1 then Unescape(rest[1]) else "",
        if |fields| > 5 then Split(fields[5], ',') else [],
        if |rest| > 2 then Split(rest[2], ',') else []))
  }

  /** A line parses exactly if it has a separator after at least five words; what is missing after them is empty. */
  lemma WordsParse(fields: seq<string>, rest: seq<string>)
    requires |fields| >= 1 && NoneHas(fields, ' ') && "-" !in fields[1..]
    requires |rest| >= 1 && NoneHas(rest, ' ')
    ensures ParseLine(Join(fields, ' ') + SEPARATOR + Join(rest, ' ')) ==
            if |fields| < 5 then None
            else Some(MountEntry(
              Unescape(fields[4]), rest[0],
              if |rest| > 1 then Unescape(rest[1]) else "",
              if |fields| > 5 then Split(fields[5], ',') else [],
              if |rest| > 2 then Split(rest[2], ',') else []))
  {
    SplitsAfterWords(fields, Join(rest, ' '));
    SplitJoin(rest, ' ');
  }

  lemma NoSeparatorIsDropped(line: string)
    ensures (forall i: nat :: !SeparatorAt(line, i)) ==> ParseLine(line).None?
  {
  }

  /** The fields the parser skips: the two ids, the device, the root, and any optional fields. */
  datatype Skipped = Skipped(id: string, parent: string, device: string, root: string, optional: seq<string>)

  function EscapeAll(xs: seq<string>): seq<string> {
    seq(|xs|, i requires 0 <= i < |xs| => Escape(xs[i]))
  }

  function Head(k: Skipped, e: MountEntry): seq<string>
    requires |e.options| >= 1
  {
    [k.id, k.parent, k.device, Escape(k.root), Escape(e.mountpoint), Join(EscapeAll(e.options), ',')] + k.optional
  }

  function Tail(e: MountEntry): seq<string>
    requires |e.superOptions| >= 1
  {
    [Escape(e.fstype), Escape(e.source), Join(EscapeAll(e.superOptions), ',')]
  }

  /** A line as the kernel prints it. */
  function PrintLine(k: Skipped, e: MountEntry): string
    requires |e.options| >= 1 && |e.superOptions| >= 1
  {
    Join(Head(k, e), ' ') + SEPARATOR + Join(Tail(e), ' ')
  }

  /** What the format itself says: ids and optional fields are single words other than the separator. */
  predicate Printable(k: Skipped, e: MountEntry) {
    && |e.options| >= 1 && |e.superOptions| >= 1 && NoneHas(e.options, ',') && NoneHas(e.superOptions, ',')
    && NoneHas([k.id, k.parent, k.device] + k.optional, ' ')
    && NoneHas([k.id, k.parent, k.device] + k.optional, '\n')
    && k.id != "-" && k.parent != "-" && k.device != "-" && k.root != "-" && "-" !in k.optional
  }

  /** Joined by spaces, words that are not a lone dash never form the separator, even before one more space. */
  lemma {:induction false} NoSeparatorIn(parts: seq<string>, after: string, i: nat)
    requires |parts| >= 1 && NoneHas(parts, ' ') && "-" !in parts[1..]
    requires i < |Join(parts, ' ')|
    ensures !SeparatorAt(Join(parts, ' ') + " " + after, i)
    decreases |parts|
  {
    var s := Join(parts, ' ') + " " + after;
    var n := |parts[0]|;
    if i < n {
      assert s[i] == parts[0][i];
    } else if |parts| > 1 {
      var rest := Join(parts[1..], ' ') + " " + after;
      assert s == parts[0] + [' '] + rest;
      assert forall k | n < k < |s| :: s[k] == rest[k - n - 1];
      if i == n {
        SecondWord(parts[1..], after);
      } else {
        assert "-" !in parts[1..][1..];
        NoSeparatorIn(parts[1..], after, i - n - 1);
      }
    }
  }

  /** Words that start with something other than a lone dash do not start with a dash and a space. */
  lemma SecondWord(parts: seq<string>, after: string)
    requires |parts| >= 1 && NoneHas(parts, ' ') && parts[0] != "-"
    ensures var s := Join(parts, ' ') + " " + after; !(|s| >= 2 && s[0] == '-' && s[1] == ' ')
  {
    var s := Join(parts, ' ') + " " + after;
    var w := parts[0];
    if |w| >= 2 {
      assert s[1] == w[1] && w[1] in w;
    } else if |w| == 1 {
      assert s[0] == w[0] && w == [w[0]];
    } else {
      assert s[0] == ' ';
    }
  }

  /** The words before the first lone dash are split off at that dash. */
  lemma SplitsAfterWords(words: seq<string>, after: string)
    requires |words| >= 1 && NoneHas(words, ' ') && "-" !in words[1..]
    ensures var line := Join(words, ' ') + SEPARATOR + after;
            && FindSeparator(line) == Some(|Join(words, ' ')|)
            && line[..|Join(words, ' ')|] == Join(words, ' ') && line[|Join(words, ' ')| + 3..] == after
            && Split(line[..|Join(words, ' ')|], ' ') == words
  {
    var line, n := Join(words, ' ') + SEPARATOR + after, |Join(words, ' ')|;
    assert line == Join(words, ' ') + " " + ("- " + after);
    forall i: nat | i < n ensures !SeparatorAt(line, i) {
      NoSeparatorIn(words, "- " + after, i);
    }
    FirstSeparator(line, n);
    SplitJoin(words, ' ');
  }

  lemma EscapeDash(s: string)
    ensures Escape(s) == "-" <==> s == "-"
  {
    EscapeChanges(s);
    if |s| == 1 {
      assert Escape(s) == EscapeChar(s[0]) + Escape("") == EscapeChar(s[0]);
    } else if |s| >= 2 {
      assert |Escape(s)| >= 2;
    }
  }

  lemma EscapeAllHides(xs: seq<string>)
    requires |xs| >= 1 && NoneHas(xs, ',')
    ensures NoneHas(EscapeAll(xs), ' ') && NoneHas(EscapeAll(xs), '\n') && NoneHas(EscapeAll(xs), ',')
    ensures ' ' !in Join(EscapeAll(xs), ',') && '\n' !in Join(EscapeAll(xs), ',')
    ensures Split(Join(EscapeAll(xs), ','), ',') == EscapeAll(xs)
    ensures Join(EscapeAll(xs), ',') == "-" <==> xs == ["-"]
  {
    forall i | 0 <= i < |xs| ensures ' ' !in Escape(xs[i]) && '\n' !in Escape(xs[i]) && ',' !in Escape(xs[i]) {
      EscapeHides(xs[i]);
      EscapeAddsNoComma(xs[i]);
    }
    JoinHas(EscapeAll(xs), ',', ' ');
    JoinHas(EscapeAll(xs), ',', '\n');
    SplitJoin(EscapeAll(xs), ',');
    EscapeDash(xs[0]);
    if Join(EscapeAll(xs), ',') == "-" {
      SplitAt("-", ',', "");
      assert |EscapeAll(xs)| == 1;
    }
  }

  lemma {:induction false} EscapeAddsNoComma(s: string)
    requires ',' !in s
    ensures ',' !in Escape(s)
    decreases |s|
  {
    if s != "" {
      EscapeAddsNoComma(s[1..]);
      assert ',' !in EscapeChar(s[0]) by {
        assert s[0] != ',';
      }
    }
  }

  /** What the parser makes of a printed line: path and source come back, type and options stay escaped. */
  function Reparsed(e: MountEntry): MountEntry {
    MountEntry(e.mountpoint, Escape(e.fstype), e.source, EscapeAll(e.options), EscapeAll(e.superOptions))
  }

  lemma SixWords(k: Skipped, e: MountEntry)
    requires Printable(k, e)
    ensures NoneHas(Head(k, e)[..6], ' ')
    ensures k.id != "-" && k.parent != "-" && k.device != "-" && Escape(k.root) != "-"
    ensures Head(k, e)[4] == "-" <==> e.mountpoint == "-"
    ensures Head(k, e)[5] == "-" <==> e.options == ["-"]
  {
    EscapeHides(k.root);
    EscapeHides(e.mountpoint);
    EscapeAllHides(e.options);
    EscapeDash(k.root);
    EscapeDash(e.mountpoint);
    var ids := [k.id, k.parent, k.device] + k.optional;
    assert ids[0] == k.id && ids[1] == k.parent && ids[2] == k.device;
  }

  lemma HeadWords(k: Skipped, e: MountEntry)
    requires Printable(k, e)
    ensures NoneHas(Head(k, e), ' ')
    ensures "-" !in Head(k, e)[6..]
  {
    SixWords(k, e);
    var ids, h := [k.id, k.parent, k.device] + k.optional, Head(k, e);
    assert h[6..] == k.optional;
    forall i | 0 <= i < |h| ensures ' ' !in h[i] {
      if i < 6 {
        assert h[i] == h[..6][i];
      } else {
        assert h[i] == ids[i - 3];
      }
    }
  }

  lemma TailWords(e: MountEntry)
    requires |e.superOptions| >= 1 && NoneHas(e.superOptions, ',')
    ensures Split(Join(Tail(e), ' '), ' ') == Tail(e)
  {
    EscapeHides(e.fstype);
    EscapeHides(e.source);
    EscapeAllHides(e.superOptions);
    SplitJoin(Tail(e), ' ');
  }

  lemma LineReparses(k: Skipped, e: MountEntry)
    requires Printable(k, e) && e.mountpoint != "-" && e.options != ["-"]
    ensures ParseLine(PrintLine(k, e)) == Some(Reparsed(e))
  {
    SixWords(k, e);
    HeadWords(k, e);
    var h := Head(k, e);
    forall i | 1 <= i < |h| ensures h[i] != "-" {
      if i >= 6 { assert h[i] == h[6..][i - 6]; }
    }
    TailWords(e);
    SplitsAfterWords(h, Join(Tail(e), ' '));
    EscapeRoundTrip(e.mountpoint);
    EscapeRoundTrip(e.source);
    EscapeAllHides(e.options);
    EscapeAllHides(e.superOptions);
  }

  lemma DashRegroups(a: string, rest: string, tail: string)
    ensures a + [' '] + "-" + [' '] + rest + SEPARATOR + tail == a + SEPARATOR + (rest + SEPARATOR + tail)
    ensures a + [' '] + "-" + SEPARATOR + tail == a + SEPARATOR + ("- " + tail)
  {
  }

  /** A lone dash among the first words is where the line is split, whatever follows. */
  lemma DashSplits(k: Skipped, e: MountEntry, n: nat)
    requires Printable(k, e) && 1 <= n < 6 && Head(k, e)[n] == "-" && "-" !in Head(k, e)[1..n]
    ensures var at := FindSeparator(PrintLine(k, e));
            at.Some? && Split(PrintLine(k, e)[..at.value], ' ') == Head(k, e)[..n]
  {
    HeadWords(k, e);
    var h, tail := Head(k, e), Join(Tail(e), ' ');
    var words, rest := h[..n], h[n + 1..];
    assert words[1..] == h[1..n];
    JoinConcat(words, ["-"], ' ');
    if rest == [] {
      assert h == words + ["-"];
      DashRegroups(Join(words, ' '), "", tail);
      SplitsAfterWords(words, "- " + tail);
    } else {
      assert h == words + ["-"] + rest;
      JoinConcat(words + ["-"], rest, ' ');
      DashRegroups(Join(words, ' '), Join(rest, ' '), tail);
      SplitsAfterWords(words, Join(rest, ' ') + SEPARATOR + tail);
    }
  }

  /** A mount point that is a lone dash is taken for the separator, and the line is dropped. */
  lemma DashMountIsDropped(k: Skipped, e: MountEntry)
    requires Printable(k, e) && e.mountpoint == "-"
    ensures ParseLine(PrintLine(k, e)).None?
  {
    SixWords(k, e);
    assert Head(k, e)[1..4] == [k.parent, k.device, Escape(k.root)];
    DashSplits(k, e, 4);
  }

  /** Options that are a lone dash are taken for the separator, and no options are read. */
  lemma DashOptionsAreLost(k: Skipped, e: MountEntry)
    requires Printable(k, e) && e.mountpoint != "-" && e.options == ["-"]
    ensures ParseLine(PrintLine(k, e)).Some? && ParseLine(PrintLine(k, e)).value.options == []
  {
    SixWords(k, e);
    assert Head(k, e)[1..5] == [k.parent, k.device, Escape(k.root), Escape(e.mountpoint)];
    DashSplits(k, e, 5);
  }

  predicate AllPlain(xs: seq<string>) {
    forall i | 0 <= i < |xs| :: Plain(xs[i])
  }

  lemma EscapeAllChanges(xs: seq<string>)
    ensures EscapeAll(xs) == xs <==> AllPlain(xs)
  {
    forall i | 0 <= i < |xs| ensures Escape(xs[i]) == xs[i] <==> Plain(xs[i]) {
      EscapeChanges(xs[i]);
    }
    assert EscapeAll(xs) == xs ==> forall i | 0 <= i < |xs| :: Escape(xs[i]) == EscapeAll(xs)[i] == xs[i];
  }

  /**
   A printed line parses back to the entry it was printed from for every mount point and source,
   exactly when neither the mount point nor the options are a lone dash and the type and the
   options need no escaping.
   */
  lemma LineRoundTripsExactly(k: Skipped, e: MountEntry)
    requires Printable(k, e)
    ensures ParseLine(PrintLine(k, e)) == Some(e) <==>
              && e.mountpoint != "-" && e.options != ["-"]
              && Plain(e.fstype) && AllPlain(e.options) && AllPlain(e.superOptions)
  {
    if e.mountpoint == "-" {
      DashMountIsDropped(k, e);
    } else if e.options == ["-"] {
      DashOptionsAreLost(k, e);
    } else {
      LineReparses(k, e);
      EscapeChanges(e.fstype);
      EscapeAllChanges(e.options);
      EscapeAllChanges(e.superOptions);
    }
  }

  // ---------------------------------------------------------------- the whole file

  function Stripped(line: string): string {
    if line != "" && line[|line| - 1] == '\r' then line[..|line| - 1] else line
  }

  /** `str::lines`: a terminated line also loses a carriage return; an empty rest is no line. */
  function Lines(text: string): seq<string> {
    var parts := Split(text, '\n');
    var n := |parts| - 1;
    seq(n, i requires 0 <= i < n => Stripped(parts[i])) + (if parts[n] == "" then [] else [parts[n]])
  }

  /** `parse_mountinfo`: malformed lines are left out. */
  function Parsed(lines: seq<string>): seq<MountEntry> {
    if lines == [] then []
    else (match ParseLine(lines[0]) case Some(e) => [e] case None => []) + Parsed(lines[1..])
  }

  function ParseMountinfo(text: string): seq<MountEntry> {
    Parsed(Lines(text))
  }

  function PrintAll(lines: seq<string>): string {
    if lines == [] then "" else lines[0] + "\n" + PrintAll(lines[1..])
  }

  lemma {:induction false} SplitPrinted(lines: seq<string>)
    requires NoneHas(lines, '\n')
    ensures Split(PrintAll(lines), '\n') == lines + [""]
    decreases |lines|
  {
    if lines != [] {
      SplitPrinted(lines[1..]);
      SplitAt(lines[0], '\n', PrintAll(lines[1..]));
      assert [lines[0]] + lines[1..] == lines;
    }
  }

  /** Printed lines are read back as they are exactly if none ends in a carriage return, which is not escaped. */
  lemma LinesRoundTripExactly(lines: seq<string>)
    requires NoneHas(lines, '\n')
    ensures Lines(PrintAll(lines)) == lines <==>
              forall i | 0 <= i < |lines| :: lines[i] == "" || lines[i][|lines[i]| - 1] != '\r'
  {
    SplitPrinted(lines);
    var got := Lines(PrintAll(lines));
    assert |got| == |lines| && forall i | 0 <= i < |lines| :: got[i] == Stripped(lines[i]);
    if got == lines {
      forall i | 0 <= i < |lines| ensures lines[i] == "" || lines[i][|lines[i]| - 1] != '\r' {
        assert Stripped(lines[i]) == lines[i];
      }
    }
  }

  lemma PrintedIsOneLine(k: Skipped, e: MountEntry)
    requires Printable(k, e)
    ensures '\n' !in PrintLine(k, e)
  {
    HeadHidesLine(k, e);
    TailHidesLine(e);
    JoinHas(Head(k, e), ' ', '\n');
    JoinHas(Tail(e), ' ', '\n');
  }

  lemma HeadHidesLine(k: Skipped, e: MountEntry)
    requires Printable(k, e)
    ensures NoneHas(Head(k, e), '\n')
  {
    EscapeHides(k.root);
    EscapeHides(e.mountpoint);
    EscapeAllHides(e.options);
    var ids := [k.id, k.parent, k.device] + k.optional;
    assert ids[0] == k.id && ids[1] == k.parent && ids[2] == k.device;
    assert forall i | 0 <= i < |k.optional| :: k.optional[i] == ids[i + 3];
  }

  lemma TailHidesLine(e: MountEntry)
    requires |e.superOptions| >= 1 && NoneHas(e.superOptions, ',')
    ensures NoneHas(Tail(e), '\n')
  {
    EscapeHides(e.fstype);
    EscapeHides(e.source);
    EscapeAllHides(e.superOptions);
  }

  /** The entry comes back from its line, and the line from the file. */
  predicate Survives(k: Skipped, e: MountEntry) {
    && Printable(k, e) && e.mountpoint != "-" && e.options != ["-"]
    && Plain(e.fstype) && AllPlain(e.options) && AllPlain(e.superOptions)
    && (var line := PrintLine(k, e); line[|line| - 1] != '\r')
  }

  lemma {:induction false} ParsedAll(lines: seq<string>, es: seq<MountEntry>)
    requires |lines| == |es| && forall i | 0 <= i < |es| :: ParseLine(lines[i]) == Some(es[i])
    ensures Parsed(lines) == es
    decreases |es|
  {
    if es != [] {
      ParsedAll(lines[1..], es[1..]);
      assert [es[0]] + es[1..] == es;
    }
  }

  /** A whole printed table of surviving entries parses back to them, in order. */
  lemma TableRoundTrips(ks: seq<Skipped>, es: seq<MountEntry>, lines: seq<string>)
    requires |ks| == |es| == |lines|
    requires forall i | 0 <= i < |es| :: Survives(ks[i], es[i]) && lines[i] == PrintLine(ks[i], es[i])
    ensures ParseMountinfo(PrintAll(lines)) == es
  {
    forall i | 0 <= i < |es| ensures '\n' !in lines[i] && ParseLine(lines[i]) == Some(es[i]) {
      PrintedIsOneLine(ks[i], es[i]);
      LineRoundTripsExactly(ks[i], es[i]);
    }
    LinesRoundTripExactly(lines);
    ParsedAll(lines, es);
  }

  // ---------------------------------------------------------------- choosing the mount of a path

  /** A path by its components; a mount point's is never empty text. */
  type Components = seq<string>

  predicate Normal(p: Components) {
    forall i | 0 <= i < |p| :: p[i] != ""
  }

  /** The text of a normalized absolute path. */
  function Render(p: Components): string {
    if p == [] then "/" else RenderParts(p)
  }

  function RenderParts(p: Components): string {
    if p == [] then "" else RenderParts(p[..|p| - 1]) + "/" + p[|p| - 1]
  }

  lemma {:induction false} PartsGrow(p: Components, q: Components)
    requires p < q && Normal(q)
    ensures |RenderParts(p)| + 2 <= |RenderParts(q)|
    decreases |q|
  {
    var last := |q| - 1;
    assert q[last] != "";
    if |p| < last {
      assert p < q[..last];
      PartsGrow(p, q[..last]);
    } else {
      assert p == q[..last];
    }
  }

  /** Among the ancestors of one path, longer text is greater depth. */
  lemma LongerIsDeeper(path: Components, p: Components, q: Components)
    requires p <= path && q <= path && Normal(p) && Normal(q)
    ensures |Render(p)| < |Render(q)| <==> |p| < |q|
    ensures |p| == |q| ==> p == q
  {
    if |p| < |q| {
      assert p < q;
      PartsGrow(p, q);
    } else if |q| < |p| {
      assert q < p;
      PartsGrow(q, p);
    } else {
      assert p == path[..|p|] == q;
    }
  }

  predicate Ancestor(mounts: seq<Components>, i: nat, path: Components) {
    i < |mounts| && mounts[i] <= path
  }

  /**
   The selection in `probe`, by text length as the source compares it: the deepest ancestor, and the
   last listed of equals.
   */
  method ChooseMount(mounts: seq<Components>, path: Components) returns (best: Option<nat>)
    requires forall i | 0 <= i < |mounts| :: Normal(mounts[i])
    ensures best.None? <==> forall i: nat :: !Ancestor(mounts, i, path)
    ensures best.Some? ==> Ancestor(mounts, best.value, path)
    ensures best.Some? ==> forall i: nat | Ancestor(mounts, i, path) ::
              |mounts[i]| <= |mounts[best.value]| && (i > best.value ==> |mounts[i]| < |mounts[best.value]|)
  {
    best := None;
    for i := 0 to |mounts|
      invariant best.None? ==> forall j: nat | j < i :: !Ancestor(mounts, j, path)
      invariant best.Some? ==> best.value < i && Ancestor(mounts, best.value, path)
      invariant best.Some? ==> forall j: nat | j < i && Ancestor(mounts, j, path) ::
                  |mounts[j]| <= |mounts[best.value]| && (j > best.value ==> |mounts[j]| < |mounts[best.value]|)
    {
      if mounts[i] <= path {
        if best.Some? {
          LongerIsDeeper(path, mounts[best.value], mounts[i]);
          LongerIsDeeper(path, mounts[i], mounts[best.value]);
        }
        if best.None? || |Render(mounts[i])| >= |Render(mounts[best.value])| {
          best := Some(i);
        }
      }
    }
  }
}
