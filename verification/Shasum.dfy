/** Characters and the string operations the checksum parsers are made of. */
module Text {
  import opened Options

  /** Unicode white space, as trimming sees it. */
  predicate IsWhite(c: char) {
    || '\U{0009}' <= c <= '\U{000D}' || c == ' ' || c == '\U{0085}' || c == '\U{00A0}' || c == '\U{1680}'
    || '\U{2000}' <= c <= '\U{200A}' || c == '\U{2028}' || c == '\U{2029}' || c == '\U{202F}' || c == '\U{205F}'
    || c == '\U{3000}'
  }

  /** ASCII white space, which leaves out the vertical tab. */
  predicate IsAsciiWhite(c: char) {
    c == ' ' || c == '\t' || c == '\n' || c == '\U{000C}' || c == '\r'
  }

  predicate IsHex(c: char) {
    '0' <= c <= '9' || 'a' <= c <= 'f' || 'A' <= c <= 'F'
  }

  predicate AllHex(s: string) {
    forall i :: 0 <= i < |s| ==> IsHex(s[i])
  }

  /** Lower case of a hexadecimal digit. */
  function Lower(c: char): char {
    if 'A' <= c <= 'F' then (c as int + 32) as char else c
  }

  function ToLower(s: string): (r: string)
    ensures |r| == |s| && forall i :: 0 <= i < |s| ==> r[i] == Lower(s[i])
  {
    seq(|s|, i requires 0 <= i < |s| => Lower(s[i]))
  }

  /** What a hexadecimal digit is worth. */
  function HexValue(c: char): nat
    requires IsHex(c)
  {
    if c <= '9' then c as nat - '0' as nat
    else if c <= 'F' then 10 + c as nat - 'A' as nat
    else 10 + c as nat - 'a' as nat
  }

  /** Lower case of a hexadecimal string: the same digits, none of them a capital. */
  lemma LowerKeepsDigits(s: string)
    requires AllHex(s)
    ensures AllHex(ToLower(s)) && forall i :: 0 <= i < |s| ==>
              HexValue(ToLower(s)[i]) == HexValue(s[i]) && !('A' <= ToLower(s)[i] <= 'Z')
  {
  }

  /** Upper case where it can yield an ASCII letter: the ASCII letters and the long s. */
  function Upper(c: char): char {
    if 'a' <= c <= 'z' then (c as int - 32) as char else if c == '\U{017F}' then 'S' else c
  }

  function ToUpper(s: string): (r: string)
    ensures |r| == |s| && forall i :: 0 <= i < |s| ==> r[i] == Upper(s[i])
  {
    seq(|s|, i requires 0 <= i < |s| => Upper(s[i]))
  }

  function TrimStart(s: string): string {
    if s != [] && IsWhite(s[0]) then TrimStart(s[1..]) else s
  }

  function TrimEnd(s: string): string {
    if s != [] && IsWhite(s[|s| - 1]) then TrimEnd(s[..|s| - 1]) else s
  }

  function Trim(s: string): string {
    TrimEnd(TrimStart(s))
  }

  /** Nothing to trim at either end. */
  predicate Trimmed(s: string) {
    s == [] || (!IsWhite(s[0]) && !IsWhite(s[|s| - 1]))
  }

  lemma TrimmedStays(s: string)
    requires Trimmed(s)
    ensures Trim(s) == s
  {
  }

  lemma {:induction false} TrimStartWhite(w: string, s: string)
    requires forall i :: 0 <= i < |w| ==> IsWhite(w[i])
    ensures TrimStart(w + s) == TrimStart(s)
  {
    if w == [] {
      assert w + s == s;
    } else {
      assert (w + s)[1..] == w[1..] + s;
      TrimStartWhite(w[1..], s);
    }
  }

  lemma TrimBlank(w: string)
    requires forall i :: 0 <= i < |w| ==> IsWhite(w[i])
    ensures Trim(w) == []
  {
    TrimStartWhite(w, []);
    assert w + [] == w;
  }

  /** A white character at the end makes no difference to trimming. */
  lemma {:induction false} TrimEndWhite(s: string, c: char)
    requires IsWhite(c)
    ensures Trim(s + [c]) == Trim(s)
  {
    if s == [] {
      assert s + [c] == [c] && [c][1..] == [];
    } else if IsWhite(s[0]) {
      assert (s + [c])[1..] == s[1..] + [c];
      TrimEndWhite(s[1..], c);
    } else {
      assert (s + [c])[..|s|] == s;
    }
  }

  /** What trimming returns is trimmed, and no longer than what it was given. */
  lemma {:induction false} TrimIsTrimmed(s: string)
    ensures Trimmed(Trim(s)) && |Trim(s)| <= |s|
  {
    TrimStartShape(s);
    TrimEndShape(TrimStart(s));
  }

  lemma {:induction false} TrimStartShape(s: string)
    ensures |TrimStart(s)| <= |s| && (TrimStart(s) == [] || !IsWhite(TrimStart(s)[0]))
  {
    if s != [] && IsWhite(s[0]) { TrimStartShape(s[1..]); }
  }

  lemma {:induction false} TrimEndShape(s: string)
    requires s == [] || !IsWhite(s[0])
    ensures |TrimEnd(s)| <= |s| && Trimmed(TrimEnd(s))
  {
    if s != [] && IsWhite(s[|s| - 1]) { TrimEndShape(s[..|s| - 1]); }
  }

  /** The first place of a character of a kind. */
  function FirstIndex(s: string, p: char -> bool): (r: Option<nat>)
    ensures r.None? ==> forall i :: 0 <= i < |s| ==> !p(s[i])
    ensures r.Some? ==> r.value < |s| && p(s[r.value]) && forall i :: 0 <= i < r.value ==> !p(s[i])
  {
    if s == [] then None
    else if p(s[0]) then Some(0)
    else
      match FirstIndex(s[1..], p)
      case None => None
      case Some(i) =>
        assert forall j :: 0 < j < i + 1 ==> s[j] == s[1..][j - 1];
        Some(i + 1)
  }

  /** The last place of a character. */
  function LastIndex(s: string, c: char): (r: Option<nat>)
    ensures r.None? ==> forall i :: 0 <= i < |s| ==> s[i] != c
    ensures r.Some? ==> r.value < |s| && s[r.value] == c && forall i :: r.value < i < |s| ==> s[i] != c
  {
    if s == [] then None
    else if s[|s| - 1] == c then Some(|s| - 1)
    else LastIndex(s[..|s| - 1], c)
  }

  function TrimStars(s: string): string {
    if s != [] && s[0] == '*' then TrimStars(s[1..]) else s
  }

  lemma {:induction false} TrimStarsShape(s: string)
    ensures |TrimStars(s)| <= |s| && (TrimStars(s) == [] || TrimStars(s)[0] != '*')
  {
    if s != [] && s[0] == '*' { TrimStarsShape(s[1..]); }
  }

  predicate IsNewline(c: char) {
    c == '\n'
  }

  function StripReturn(line: string): string {
    if line != [] && line[|line| - 1] == '\r' then line[..|line| - 1] else line
  }

  /** The lines of a text; a line break at the very end does not start another one. */
  function Lines(s: string): seq<string>
    decreases |s|
  {
    match FirstIndex(s, IsNewline)
    case None => if s == [] then [] else [s]
    case Some(i) => [StripReturn(s[..i])] + Lines(s[i + 1..])
  }

  /** What f gives for each string, one after the other. */
  function FlatMap<T>(ls: seq<string>, f: string -> seq<T>): seq<T> {
    if ls == [] then [] else f(ls[0]) + FlatMap(ls[1..], f)
  }

  /** f takes nothing from an empty line and does not mind a carriage return at the end. */
  ghost predicate Linewise<T(!new)>(f: string -> seq<T>) {
    f([]) == [] && forall l :: f(StripReturn(l)) == f(l)
  }

  /** Reading up to the first line break, then the rest. */
  lemma LinesUnfold<T(!new)>(s: string, f: string -> seq<T>)
    requires Linewise(f)
    ensures FirstIndex(s, IsNewline).None? ==> FlatMap(Lines(s), f) == f(s)
    ensures FirstIndex(s, IsNewline).Some? ==>
              var i := FirstIndex(s, IsNewline).value; FlatMap(Lines(s), f) == f(s[..i]) + FlatMap(Lines(s[i + 1..]), f)
  {
    match FirstIndex(s, IsNewline) {
      case None =>
        if s != [] { assert [s][1..] == [] && f(s) + [] == f(s); }
      case Some(i) =>
        var line, rest := StripReturn(s[..i]), Lines(s[i + 1..]);
        assert ([line] + rest)[1..] == rest;
    }
  }

  lemma BreakIsAt(s: string, i: nat)
    requires i < |s| && s[i] == '\n' && forall k :: 0 <= k < i ==> s[k] != '\n'
    ensures FirstIndex(s, IsNewline) == Some(i)
  {
    assert IsNewline(s[i]);
    var j := FirstIndex(s, IsNewline);
    assert j.Some? && IsNewline(s[j.value]);
  }

  /** Where the first line break of a joined text is. */
  lemma FirstBreak(a: string, b: string)
    ensures FirstIndex(a, IsNewline).None? ==> FirstIndex(a + "\n" + b, IsNewline) == Some(|a|)
    ensures FirstIndex(a, IsNewline).Some? ==> FirstIndex(a + "\n" + b, IsNewline) == FirstIndex(a, IsNewline)
  {
    var s, i := a + "\n" + b, FirstIndex(a, IsNewline);
    assert forall k :: 0 <= k < |a| ==> s[k] == a[k];
    if i.None? {
      assert forall k :: 0 <= k < |a| ==> !IsNewline(a[k]);
      BreakIsAt(s, |a|);
    } else {
      assert IsNewline(a[i.value]) && forall k :: 0 <= k < i.value ==> !IsNewline(a[k]);
      BreakIsAt(s, i.value);
    }
  }

  lemma JoinSlices(a: string, b: string)
    ensures (a + "\n" + b)[..|a|] == a && (a + "\n" + b)[|a| + 1..] == b
    ensures forall i :: 0 <= i < |a| ==>
              (a + "\n" + b)[..i] == a[..i] && (a + "\n" + b)[i + 1..] == a[i + 1..] + "\n" + b
  {
  }

  lemma Reassociate<T>(a: seq<T>, b: seq<T>, c: seq<T>)
    ensures a + (b + c) == (a + b) + c
  {
  }

  /** Line by line, a text joined at a line break is its two parts. */
  lemma {:induction false} LinesDistribute<T(!new)>(a: string, b: string, f: string -> seq<T>)
    requires Linewise(f)
    ensures FlatMap(Lines(a + "\n" + b), f) == FlatMap(Lines(a), f) + FlatMap(Lines(b), f)
    decreases |a|
  {
    LinesUnfold(a, f);
    LinesUnfold(a + "\n" + b, f);
    FirstBreak(a, b);
    JoinSlices(a, b);
    var first := FirstIndex(a, IsNewline);
    if first.Some? {
      var i := first.value;
      LinesDistribute(a[i + 1..], b, f);
      Reassociate(f(a[..i]), FlatMap(Lines(a[i + 1..]), f), FlatMap(Lines(b), f));
    }
  }
}

/** Parsing checksum files in their three line formats. */
module Shasum {
  import opened Options
  import opened Text

  datatype Algorithm = Sha256 | Sha384 | Sha512

  datatype Entry = Entry(algorithm: Algorithm, checksum: string, filename: string)

  function FromHexLen(n: nat): Option<Algorithm> {
    if n == 64 then Some(Sha256) else if n == 96 then Some(Sha384) else if n == 128 then Some(Sha512) else None
  }

  /** `<checksum>  <filename>` or `<checksum> *<filename>` */
  function ParseGnuLine(line: string): Option<Entry> {
    match FirstIndex(line, IsAsciiWhite)
    case None => None
    case Some(i) =>
      var filename := Trim(TrimStars(Trim(line[i + 1..])));
      var checksum := Trim(line[..i]);
      if filename == [] || !AllHex(checksum) then None
      else
        match FromHexLen(|checksum|)
        case None => None
        case Some(a) => Some(Entry(a, ToLower(checksum), filename))
  }

  /** `<checksum>` alone; the entry has no filename. */
  function ParseBareDigestLine(line: string): Option<Entry> {
    if !AllHex(line) then None
    else
      match FromHexLen(|line|)
      case None => None
      case Some(a) => Some(Entry(a, ToLower(line), []))
  }

  function AlgorithmNamed(name: string): Option<Algorithm> {
    if name == "SHA256" then Some(Sha256)
    else if name == "SHA384" then Some(Sha384)
    else if name == "SHA512" then Some(Sha512)
    else None
  }

  predicate IsSpace(c: char) {
    c == ' '
  }

  /** `SHA256 (<filename>) = <checksum>`, cut at the last closing parenthesis */
  function ParseBsdLine(line: string): Option<Entry> {
    match FirstIndex(line, IsSpace)
    case None => None
    case Some(i) =>
      var algorithm := AlgorithmNamed(ToUpper(line[..i]));
      var rest := Trim(line[i + 1..]);
      if algorithm.None? || rest == [] || rest[0] != '(' then None
      else
        match LastIndex(rest[1..], ')')
        case None => None
        case Some(j) =>
          var value := Trim(rest[1..][j + 1..]);
          if value == [] || value[0] != '=' then None
          else
            var checksum := Trim(value[1..]);
            if !AllHex(checksum) then None
            else Some(Entry(algorithm.value, ToLower(checksum), Trim(rest[1..][..j])))
  }

  /** The entries of one line: one or none, by the first format that fits. */
  function EntriesOf(line: string): seq<Entry> {
    var l := Trim(line);
    if l == [] || l[0] == '#' then []
    else
      var e :=
        if ParseBsdLine(l).Some? then ParseBsdLine(l)
        else if ParseGnuLine(l).Some? then ParseGnuLine(l)
        else ParseBareDigestLine(l);
      if e.Some? then [e.value] else []
  }

  function Parsed(content: string): seq<Entry> {
    FlatMap(Lines(content), EntriesOf)
  }

  /** parse_shasum_file */
  method ParseShasumFile(content: string) returns (entries: seq<Entry>)
    ensures entries == Parsed(content)
  {
    var lines := Lines(content);
    entries := [];
    for i := 0 to |lines|
      invariant entries + FlatMap(lines[i..], EntriesOf) == Parsed(content)
    {
      assert lines[i..][1..] == lines[i + 1..];
      entries := entries + EntriesOf(lines[i]);
    }
  }

  // ----- the formats exclude each other -----

  /** A known algorithm name starts with a letter that is no hexadecimal digit, and has no white space. */
  lemma NamedAlgorithmShape(name: string)
    requires AlgorithmNamed(ToUpper(name)).Some?
    ensures |name| == 6 && !IsHex(name[0]) && Trimmed(name) && forall i :: 0 <= i < 6 ==> !IsAsciiWhite(name[i])
  {
    var up := ToUpper(name);
    assert up[0] == 'S' && up[1] == 'H' && up[2] == 'A';
    assert up[5] == '6' || up[5] == '4' || up[5] == '2';
    assert forall i :: 0 <= i < 6 ==> up[i] in {'S', 'H', 'A', '2', '3', '4', '5', '6', '8', '1'};
    assert forall i :: 0 <= i < 6 ==> up[i] == Upper(name[i]);
  }

  lemma SameFirstIndex(line: string, i: nat)
    requires FirstIndex(line, IsSpace) == Some(i) && forall k :: 0 <= k < i ==> !IsAsciiWhite(line[k])
    ensures FirstIndex(line, IsAsciiWhite) == Some(i)
  {
  }

  /** Whatever the line, at most one of the three formats accepts it: the trial order is irrelevant. */
  lemma FormatsAreDisjoint(line: string)
    ensures !(ParseBsdLine(line).Some? && ParseGnuLine(line).Some?)
    ensures !(ParseBsdLine(line).Some? && ParseBareDigestLine(line).Some?)
    ensures !(ParseGnuLine(line).Some? && ParseBareDigestLine(line).Some?)
  {
    if ParseBsdLine(line).Some? {
      var i := FirstIndex(line, IsSpace).value;
      NamedAlgorithmShape(line[..i]);
      assert forall k :: 0 <= k < i ==> line[k] == line[..i][k];
      SameFirstIndex(line, i);
      TrimmedStays(line[..i]);
    }
    if AllHex(line) {
      assert FirstIndex(line, IsAsciiWhite).None? && FirstIndex(line, IsSpace).None?;
    }
  }

  // ----- a file is the sum of its parts -----

  lemma StripReturnIsTrimmed(line: string)
    ensures EntriesOf(StripReturn(line)) == EntriesOf(line)
  {
    if line != [] && line[|line| - 1] == '\r' {
      TrimEndWhite(line[..|line| - 1], '\r');
      assert line == line[..|line| - 1] + ['\r'];
    }
  }

  lemma EntriesAreLinewise()
    ensures Linewise(EntriesOf)
  {
    TrimBlank([]);
    forall l ensures EntriesOf(StripReturn(l)) == EntriesOf(l) {
      StripReturnIsTrimmed(l);
    }
  }

  /** Cutting a file at any line break and parsing the parts gives the entries of the whole. */
  lemma ParsingDistributes(a: string, b: string)
    ensures Parsed(a + "\n" + b) == Parsed(a) + Parsed(b)
  {
    EntriesAreLinewise();
    LinesDistribute(a, b, EntriesOf);
  }

  // ----- printed files parse back -----

  datatype PrintedLine =
    | GnuLine(digest: string, binary: bool, name: string)
    | BareLine(digest: string)
    | BsdLine(algorithm: Algorithm, name: string, digest: string)
    | CommentLine(text: string)
    | BlankLine(white: string)

  function NameOf(a: Algorithm): (r: string)
    ensures |r| == 6 && AlgorithmNamed(r) == Some(a)
  {
    match a
    case Sha256 => "SHA256"
    case Sha384 => "SHA384"
    case Sha512 => "SHA512"
  }

  function HexLen(a: Algorithm): nat {
    match a
    case Sha256 => 64
    case Sha384 => 96
    case Sha512 => 128
  }

  function Printed(l: PrintedLine): string {
    match l
    case GnuLine(digest, binary, name) => digest + (if binary then " *" else "  ") + name
    case BareLine(digest) => digest
    case BsdLine(a, name, digest) => NameOf(a) + " (" + name + ") = " + digest
    case CommentLine(text) => "#" + text
    case BlankLine(white) => white
  }

  predicate OneLine(s: string) {
    forall i :: 0 <= i < |s| ==> s[i] != '\n'
  }

  /** Lower-case hexadecimal. */
  predicate IsDigest(s: string) {
    forall i :: 0 <= i < |s| ==> IsHex(s[i]) && !('A' <= s[i] <= 'F')
  }

  /** GNU and bare digests have the length of an algorithm; names have no white ends, a GNU name no star in front. */
  predicate WellFormed(l: PrintedLine) {
    match l
    case GnuLine(digest, binary, name) =>
      IsDigest(digest) && FromHexLen(|digest|).Some? && OneLine(name) && Trimmed(name) && name != [] && name[0] != '*'
    case BareLine(digest) => IsDigest(digest) && FromHexLen(|digest|).Some?
    case BsdLine(a, name, digest) => IsDigest(digest) && OneLine(name) && Trimmed(name)
    case CommentLine(text) => OneLine(text)
    case BlankLine(white) => OneLine(white) && forall i :: 0 <= i < |white| ==> IsWhite(white[i])
  }

  function Meant(l: PrintedLine): seq<Entry>
    requires WellFormed(l)
  {
    match l
    case GnuLine(digest, _, name) => [Entry(FromHexLen(|digest|).value, digest, name)]
    case BareLine(digest) => [Entry(FromHexLen(|digest|).value, digest, [])]
    case BsdLine(a, name, digest) => [Entry(a, digest, name)]
    case CommentLine(_) => []
    case BlankLine(_) => []
  }

  lemma DigestIsLower(s: string)
    requires IsDigest(s)
    ensures ToLower(s) == s && AllHex(s) && Trimmed(s)
  {
  }

  /** The parts of a GNU line, for any name at all. */
  lemma GnuParts(digest: string, binary: bool, name: string)
    requires AllHex(digest) && digest != []
    ensures var l := Printed(GnuLine(digest, binary, name));
            FirstIndex(l, IsAsciiWhite) == Some(|digest|) && l[..|digest|] == digest
            && l[|digest| + 1..] == (if binary then "*" else " ") + name
  {
    var l := Printed(GnuLine(digest, binary, name));
    assert forall i :: 0 <= i < |digest| ==> l[i] == digest[i] && !IsAsciiWhite(l[i]);
    assert l[|digest|] == ' ';
  }

  lemma GnuName(binary: bool, name: string)
    requires Trimmed(name) && name != [] && name[0] != '*'
    ensures Trim(TrimStars(Trim((if binary then "*" else " ") + name))) == name
  {
    var rest := (if binary then "*" else " ") + name;
    TrimmedStays(name);
    if binary {
      TrimmedStays(rest);
      assert rest[1..] == name;
    } else {
      TrimStartWhite(" ", name);
    }
  }

  /** A GNU line put together from its parts. */
  lemma GnuFromParts(line: string, i: nat, digest: string, name: string)
    requires FirstIndex(line, IsAsciiWhite) == Some(i) && line[..i] == digest
    requires Trim(TrimStars(Trim(line[i + 1..]))) == name && name != []
    requires IsDigest(digest) && FromHexLen(|digest|).Some?
    ensures ParseGnuLine(line) == Some(Entry(FromHexLen(|digest|).value, digest, name))
  {
    DigestIsLower(digest);
    TrimmedStays(digest);
  }

  lemma GnuParses(l: PrintedLine)
    requires l.GnuLine? && WellFormed(l)
    ensures ParseGnuLine(Printed(l)) == Some(Meant(l)[0])
  {
    GnuParts(l.digest, l.binary, l.name);
    GnuName(l.binary, l.name);
    GnuFromParts(Printed(l), |l.digest|, l.digest, l.name);
  }

  lemma GnuTrimmed(l: PrintedLine)
    requires l.GnuLine? && WellFormed(l)
    ensures Printed(l) != [] && Trimmed(Printed(l)) && Printed(l)[0] != '#'
  {
    JoinedTrimmed(l.digest, if l.binary then " *" else "  ", l.name);
    assert Printed(l)[0] == l.digest[0];
  }

  /** A BSD line up to the digest, without the blank before it. */
  function BsdHead(a: Algorithm, name: string): string {
    NameOf(a) + " (" + name + ") ="
  }

  /** What follows the equals sign once the line is trimmed: a blank and the digest, or nothing. */
  function BsdTail(digest: string): string {
    if digest == [] then [] else " " + digest
  }

  lemma HexIsTrimmed(s: string)
    requires AllHex(s)
    ensures Trimmed(s) && Trim(s) == s && forall i :: 0 <= i < |s| ==> s[i] != ')'
  {
  }

  lemma ConcatEnds(a: string, b: string)
    requires a != []
    ensures (a + b)[0] == a[0] && (b != [] ==> (a + b)[|a + b| - 1] == b[|b| - 1])
    ensures b == [] ==> a + b == a
  {
  }

  lemma BsdHeadEnds(a: Algorithm, name: string)
    ensures BsdHead(a, name)[0] == 'S' && BsdHead(a, name)[|BsdHead(a, name)| - 1] == '='
  {
    ConcatEnds(NameOf(a), " (" + name + ") =");
    assert BsdHead(a, name) == NameOf(a) + (" (" + name + ") =");
  }

  /** A printed BSD line, trimmed: only the blank before an empty digest goes. */
  lemma BsdTrimmed(a: Algorithm, name: string, digest: string)
    requires AllHex(digest)
    ensures Trim(Printed(BsdLine(a, name, digest))) == BsdHead(a, name) + BsdTail(digest)
  {
    var s, head := Printed(BsdLine(a, name, digest)), BsdHead(a, name);
    assert s == head + (" " + digest);
    BsdHeadEnds(a, name);
    HexIsTrimmed(digest);
    if digest == [] {
      assert " " + digest == [' '];
      TrimEndWhite(head, ' ');
      TrimmedStays(head);
    } else {
      ConcatEnds(head, " " + digest);
      TrimmedStays(s);
    }
  }

  lemma SplitAtBlank(word: string, rest: string)
    requires forall i :: 0 <= i < |word| ==> !IsSpace(word[i])
    ensures var l := word + (" " + rest);
            FirstIndex(l, IsSpace) == Some(|word|) && l[..|word|] == word && l[|word| + 1..] == rest
  {
    var l := word + (" " + rest);
    assert forall i :: 0 <= i < |word| ==> l[i] == word[i];
    assert IsSpace(l[|word|]);
  }

  lemma BsdRestTrimmed(name: string, digest: string)
    requires AllHex(digest)
    ensures var rest := "(" + (name + ") =" + BsdTail(digest)); Trim(rest) == rest
  {
    var front := "(" + (name + ") =");
    var rest := "(" + (name + ") =" + BsdTail(digest));
    assert rest == front + BsdTail(digest);
    assert front[0] == '(' && front[|front| - 1] == '=';
    ConcatEnds(front, BsdTail(digest));
    HexIsTrimmed(digest);
    TrimmedStays(rest);
  }

  /** The parts of a trimmed BSD line, whatever parentheses the name holds. */
  lemma BsdParts(a: Algorithm, name: string, digest: string)
    requires AllHex(digest)
    ensures var l := BsdHead(a, name) + BsdTail(digest);
            && FirstIndex(l, IsSpace) == Some(6) && l[..6] == NameOf(a) && |l| > 7 && l[0] == 'S'
            && Trim(l[7..]) == "(" + (name + ") =" + BsdTail(digest))
  {
    var rest := "(" + (name + ") =" + BsdTail(digest));
    assert BsdHead(a, name) + BsdTail(digest) == NameOf(a) + (" " + rest);
    SplitAtBlank(NameOf(a), rest);
    BsdRestTrimmed(name, digest);
  }

  lemma BsdInner(name: string, digest: string, inner: string)
    requires AllHex(digest) && inner == name + ") =" + BsdTail(digest)
    ensures LastIndex(inner, ')') == Some(|name|) && inner[..|name|] == name
    ensures inner[|name| + 1..] == " =" + BsdTail(digest)
  {
    assert inner[|name|] == ')';
    assert forall i :: |name| < i < |inner| ==> inner[i] != ')' by {
      assert inner[|name| + 1..] == " =" + BsdTail(digest);
    }
  }

  lemma BsdValue(digest: string)
    requires AllHex(digest)
    ensures Trim(" =" + BsdTail(digest)) == "=" + BsdTail(digest) && Trim(BsdTail(digest)) == digest
  {
    var value := "=" + BsdTail(digest);
    TrimStartWhite(" ", value);
    assert " " + value == " =" + BsdTail(digest);
    TrimmedStays(value);
    TrimStartWhite(" ", digest);
    HexIsTrimmed(digest);
  }

  /** A BSD line put together from its parts. */
  lemma BsdFromParts(line: string, i: nat, a: Algorithm, inner: string, j: nat, value: string, checksum: string)
    requires FirstIndex(line, IsSpace) == Some(i) && AlgorithmNamed(ToUpper(line[..i])) == Some(a)
    requires Trim(line[i + 1..]) == "(" + inner && LastIndex(inner, ')') == Some(j)
    requires Trim(inner[j + 1..]) == "=" + value && Trim(value) == checksum && AllHex(checksum)
    ensures ParseBsdLine(line) == Some(Entry(a, ToLower(checksum), Trim(inner[..j])))
  {
    assert ("(" + inner)[1..] == inner && ("=" + value)[1..] == value;
  }

  lemma BsdLineParses(line: string, a: Algorithm, name: string, digest: string, inner: string)
    requires FirstIndex(line, IsSpace) == Some(6) && AlgorithmNamed(ToUpper(line[..6])) == Some(a)
    requires inner == name + ") =" + BsdTail(digest) && Trim(line[7..]) == "(" + inner && AllHex(digest)
    ensures ParseBsdLine(line) == Some(Entry(a, ToLower(digest), Trim(name)))
  {
    BsdInner(name, digest, inner);
    BsdValue(digest);
    BsdFromParts(line, 6, a, inner, |name|, BsdTail(digest), digest);
  }

  /** A BSD line gives its digest back, whatever its length, with the name trimmed. */
  lemma BsdParses(a: Algorithm, name: string, digest: string)
    requires AllHex(digest)
    ensures EntriesOf(Printed(BsdLine(a, name, digest))) == [Entry(a, ToLower(digest), Trim(name))]
  {
    BsdTrimmed(a, name, digest);
    BsdParts(a, name, digest);
    UpperName(a);
    BsdLineParses(BsdHead(a, name) + BsdTail(digest), a, name, digest, name + ") =" + BsdTail(digest));
  }

  lemma BareParses(digest: string)
    requires IsDigest(digest) && FromHexLen(|digest|).Some?
    ensures EntriesOf(digest) == [Entry(FromHexLen(|digest|).value, digest, [])]
  {
    DigestIsLower(digest);
    HexIsTrimmed(digest);
    assert IsHex(digest[0]);
    FormatsAreDisjoint(digest);
  }

  lemma UpperName(a: Algorithm)
    ensures ToUpper(NameOf(a)) == NameOf(a)
  {
  }

  lemma LineParses(l: PrintedLine)
    requires WellFormed(l)
    ensures EntriesOf(Printed(l)) == Meant(l)
  {
    var s := Printed(l);
    match l {
      case GnuLine(_, _, _) =>
        GnuParses(l);
        GnuTrimmed(l);
        FormatsAreDisjoint(s);
        TrimmedStays(s);
      case BareLine(digest) => BareParses(digest);
      case BsdLine(a, name, digest) =>
        BsdParses(a, name, digest);
        DigestIsLower(digest);
        TrimmedStays(name);
      case CommentLine(text) => CommentStays(text);
      case BlankLine(white) => TrimBlank(white);
    }
  }

  lemma {:induction false} CommentStays(text: string)
    ensures Trim("#" + text) != [] && Trim("#" + text)[0] == '#'
  {
    TrimEndKeepsFirst("#" + text);
  }

  lemma {:induction false} TrimEndKeepsFirst(s: string)
    requires s != [] && !IsWhite(s[0])
    ensures TrimEnd(s) != [] && TrimEnd(s)[0] == s[0]
  {
    if IsWhite(s[|s| - 1]) { TrimEndKeepsFirst(s[..|s| - 1]); }
  }

  lemma PrintedIsOneLine(l: PrintedLine)
    requires WellFormed(l)
    ensures FirstIndex(Printed(l), IsNewline).None?
  {
    match l {
      case GnuLine(digest, binary, name) =>
        OneLineJoin(digest, if binary then " *" else "  ");
        OneLineJoin(digest + (if binary then " *" else "  "), name);
      case BareLine(_) =>
      case BsdLine(a, name, digest) =>
        OneLineJoin(NameOf(a), " (");
        OneLineJoin(NameOf(a) + " (", name);
        OneLineJoin(NameOf(a) + " (" + name, ") = ");
        OneLineJoin(NameOf(a) + " (" + name + ") = ", digest);
      case CommentLine(text) => OneLineJoin("#", text);
      case BlankLine(_) =>
    }
    assert OneLine(Printed(l));
  }

  lemma OneLineJoin(a: string, b: string)
    requires OneLine(a) && OneLine(b)
    ensures OneLine(a + b)
  {
  }

  function PrintedFile(ls: seq<PrintedLine>): string {
    if ls == [] then "" else Printed(ls[0]) + "\n" + PrintedFile(ls[1..])
  }

  function MeantBy(ls: seq<PrintedLine>): seq<Entry>
    requires forall i :: 0 <= i < |ls| ==> WellFormed(ls[i])
  {
    if ls == [] then [] else Meant(ls[0]) + MeantBy(ls[1..])
  }

  /** Any mix of well-formed lines, comments and blanks parses back to exactly the entries printed. */
  lemma {:induction false} FileParsesBack(ls: seq<PrintedLine>)
    requires forall i :: 0 <= i < |ls| ==> WellFormed(ls[i])
    ensures Parsed(PrintedFile(ls)) == MeantBy(ls)
  {
    if ls != [] {
      FileParsesBack(ls[1..]);
      ParsingDistributes(Printed(ls[0]), PrintedFile(ls[1..]));
      PrintedIsOneLine(ls[0]);
      EntriesAreLinewise();
      LinesUnfold(Printed(ls[0]), EntriesOf);
      LineParses(ls[0]);
    }
  }

  // ----- what is not recovered -----

  lemma BsdFilenameTrimmed(l: string)
    requires ParseBsdLine(l).Some?
    ensures Trimmed(ParseBsdLine(l).value.filename)
  {
    var rest := Trim(l[FirstIndex(l, IsSpace).value + 1..]);
    TrimIsTrimmed(rest[1..][..LastIndex(rest[1..], ')').value]);
  }

  lemma GnuFilename(l: string)
    requires ParseGnuLine(l).Some?
    ensures FirstIndex(l, IsAsciiWhite).Some?
    ensures ParseGnuLine(l).value.filename == Trim(TrimStars(Trim(l[FirstIndex(l, IsAsciiWhite).value + 1..])))
    ensures Trimmed(ParseGnuLine(l).value.filename)
  {
    TrimIsTrimmed(TrimStars(Trim(l[FirstIndex(l, IsAsciiWhite).value + 1..])));
  }

  /** The entry of a line comes from one of the formats. */
  lemma EntryOrigin(line: string, e: Entry)
    requires e in EntriesOf(line)
    ensures var l := Trim(line);
            ParseBsdLine(l) == Some(e) || ParseGnuLine(l) == Some(e) || ParseBareDigestLine(l) == Some(e)
  {
  }

  /** No entry has a filename with white ends. */
  lemma FilenamesAreTrimmed(line: string)
    ensures forall e :: e in EntriesOf(line) ==> Trimmed(e.filename)
  {
    var l := Trim(line);
    forall e | e in EntriesOf(line) ensures Trimmed(e.filename) {
      EntryOrigin(line, e);
      if ParseBsdLine(l) == Some(e) {
        BsdFilenameTrimmed(l);
      } else if ParseGnuLine(l) == Some(e) {
        GnuFilename(l);
      } else {
        assert e.filename == [];
      }
    }
  }

  lemma NotBsd(digest: string, binary: bool, name: string)
    requires IsDigest(digest) && FromHexLen(|digest|).Some?
    ensures ParseBsdLine(Printed(GnuLine(digest, binary, name))).None?
  {
    var l := Printed(GnuLine(digest, binary, name));
    assert forall i :: 0 <= i < |digest| ==> l[i] == digest[i] && !IsSpace(l[i]);
    assert IsSpace(l[|digest|]);
    var i := FirstIndex(l, IsSpace).value;
    assert i == |digest|;
    if AlgorithmNamed(ToUpper(l[..i])).Some? { NamedAlgorithmShape(l[..i]); }
  }

  lemma StarIsLost(binary: bool, name: string)
    requires Trimmed(name) && name != [] && name[0] == '*'
    ensures |Trim(TrimStars(Trim((if binary then "*" else " ") + name)))| < |name|
  {
    TrimmedStays(name);
    TrimStarsShape(name[1..]);
    TrimIsTrimmed(TrimStars(name));
    if binary {
      TrimmedStays("*" + name);
      assert ("*" + name)[1..] == name;
    } else {
      TrimStartWhite(" ", name);
    }
  }

  /** A GNU line gives a (non-empty) name back exactly when it has no white ends and starts with no star. */
  lemma GnuNameRecovered(digest: string, binary: bool, name: string)
    requires IsDigest(digest) && FromHexLen(|digest|).Some? && OneLine(name) && name != []
    ensures EntriesOf(Printed(GnuLine(digest, binary, name))) == [Entry(FromHexLen(|digest|).value, digest, name)]
       <==> Trimmed(name) && name[0] != '*'
  {
    var l := GnuLine(digest, binary, name);
    FilenamesAreTrimmed(Printed(l));
    if Trimmed(name) && name[0] != '*' {
      LineParses(l);
    } else if Trimmed(name) {
      StarredNameDiffers(digest, binary, name);
    }
  }

  lemma JoinedTrimmed(a: string, mid: string, b: string)
    requires a != [] && b != [] && Trimmed(a) && Trimmed(b)
    ensures Trimmed(a + mid + b)
  {
    var s := a + mid + b;
    assert s[0] == a[0] && s[|s| - 1] == b[|b| - 1];
  }

  lemma StarredNameDiffers(digest: string, binary: bool, name: string)
    requires IsDigest(digest) && FromHexLen(|digest|).Some? && Trimmed(name) && name != [] && name[0] == '*'
    ensures forall e :: e in EntriesOf(Printed(GnuLine(digest, binary, name))) ==> e.filename != name
  {
    var s := Printed(GnuLine(digest, binary, name));
    JoinedTrimmed(digest, if binary then " *" else "  ", name);
    TrimmedStays(s);
    NotBsd(digest, binary, name);
    forall e | e in EntriesOf(s) ensures e.filename != name {
      EntryOrigin(s, e);
      if ParseGnuLine(s) == Some(e) {
        StarredFilename(digest, binary, name);
      } else {
        assert e.filename == [];
      }
    }
  }

  lemma StarredFilename(digest: string, binary: bool, name: string)
    requires IsDigest(digest) && digest != [] && Trimmed(name) && name != [] && name[0] == '*'
    requires ParseGnuLine(Printed(GnuLine(digest, binary, name))).Some?
    ensures |ParseGnuLine(Printed(GnuLine(digest, binary, name))).value.filename| < |name|
  {
    GnuParts(digest, binary, name);
    GnuFilename(Printed(GnuLine(digest, binary, name)));
    StarIsLost(binary, name);
  }

  /** The same digits, some of them perhaps capitals. */
  predicate SameDigits(a: string, b: string) {
    AllHex(a) && AllHex(b) && |a| == |b| && forall i :: 0 <= i < |a| ==> HexValue(a[i]) == HexValue(b[i])
  }

  lemma LowerIsDigest(capitals: string, digest: string)
    requires IsDigest(digest) && SameDigits(capitals, digest)
    ensures ToLower(capitals) == digest
  {
    LowerKeepsDigits(capitals);
    forall i | 0 <= i < |digest| ensures ToLower(capitals)[i] == digest[i] {
      DigitIsUnique(ToLower(capitals)[i], digest[i]);
    }
  }

  /** Capitals in a digest do not matter: the entry has its digits in lower case. */
  lemma BareCapitals(digest: string, capitals: string)
    requires IsDigest(digest) && FromHexLen(|digest|).Some? && SameDigits(capitals, digest)
    ensures ParseBareDigestLine(capitals) == Some(Entry(FromHexLen(|digest|).value, digest, []))
  {
    LowerIsDigest(capitals, digest);
  }

  lemma GnuCapitals(digest: string, capitals: string, binary: bool, name: string)
    requires IsDigest(digest) && FromHexLen(|digest|).Some? && SameDigits(capitals, digest)
    requires Trimmed(name) && name != [] && name[0] != '*'
    ensures ParseGnuLine(Printed(GnuLine(capitals, binary, name)))
         == Some(Entry(FromHexLen(|digest|).value, digest, name))
  {
    LowerIsDigest(capitals, digest);
    GnuParts(capitals, binary, name);
    GnuName(binary, name);
    HexIsTrimmed(capitals);
  }

  lemma DigitIsUnique(c: char, d: char)
    requires IsHex(c) && IsHex(d) && HexValue(c) == HexValue(d)
    requires !('A' <= c <= 'Z') && !('A' <= d <= 'Z')
    ensures c == d
  {
  }

  /** GNU and bare digests have the length of their algorithm. */
  lemma DigestLengthChecked(line: string)
    ensures ParseGnuLine(line).Some? ==>
              |ParseGnuLine(line).value.checksum| == HexLen(ParseGnuLine(line).value.algorithm)
    ensures ParseBareDigestLine(line).Some? ==>
              |ParseBareDigestLine(line).value.checksum| == HexLen(ParseBareDigestLine(line).value.algorithm)
  {
  }

  /**
   * A BSD digest of any length is taken, the empty one included: the entry of a printed BSD line has
   * the length of its algorithm exactly when the printed digest has.
   */
  lemma BsdLengthUnchecked(a: Algorithm, name: string, digest: string)
    requires AllHex(digest)
    ensures var es := EntriesOf(Printed(BsdLine(a, name, digest)));
            |es| == 1 && es[0].algorithm == a && (|es[0].checksum| == HexLen(a) <==> |digest| == HexLen(a))
  {
    BsdParses(a, name, digest);
  }

  /** Lines whose entry holds a checksum that its algorithm never yields: no digit, and one. */
  lemma BsdShortDigests(a: Algorithm)
    ensures EntriesOf(Printed(BsdLine(a, "f", ""))) == [Entry(a, "", "f")]
    ensures EntriesOf(Printed(BsdLine(a, "f", "0"))) == [Entry(a, "0", "f")]
    ensures |""| != HexLen(a) && |"0"| != HexLen(a)
  {
    LineParses(BsdLine(a, "f", ""));
    LineParses(BsdLine(a, "f", "0"));
  }
}
