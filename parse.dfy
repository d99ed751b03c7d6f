/** The archive description format (src/archive/parse.rs). A description is
    text; every line of the form `attribute(part,part,...)` whose first
    character is a lower-case ASCII letter is an attribute line, and
    `parse_file` folds the attribute lines into a name, an author, a
    description, a soundtrack and a list of tags. Every other line is
    ignored. */
module ArchiveParse {
  import opened Common

  // ---------------------------------------------------------------------------
  // Errors and results
  // ---------------------------------------------------------------------------

  /** `ArchiveFileParseError`; only the last three are ever produced. */
  datatype ParseError =
    | InvalidCharactersInField(field: string, character: string)
    | FieldValueTooLong(field: string, maxLength: Int32)
    | InvalidMusicPath(reason: string)
    | MissingField(field: string)
    | Other(reason: string)

  /** The `Display` of a parse error: only `Other` shows its text. */
  function ErrorText(e: ParseError): (s: string)
    ensures e.Other? ==> s == "Generic parse error: " + e.reason
    ensures !e.Other? ==> s == "Generic parse error"
    ensures |s| >= |"Generic parse error"| && s[..19] == "Generic parse error"
  {
    match e
    case Other(reason) => "Generic parse error: " + reason
    case _ => "Generic parse error"
  }

  /** `GenericArchiveFileInfo`; the soundtrack is (folder, file name). */
  datatype ArchiveInfo = ArchiveInfo(
    name: string,
    author: Option<string>,
    soundtrack: Option<(string, string)>,
    description: Option<string>,
    tags: seq<string>)

  // ---------------------------------------------------------------------------
  // Text helpers: search, trimming, splitting and joining
  // ---------------------------------------------------------------------------

  /** The position of the first `c` in `s`. */
  function IndexOf(s: string, c: char): (k: nat)
    requires c in s
    ensures k < |s| && s[k] == c
    ensures forall i :: 0 <= i < k ==> s[i] != c
  {
    if s[0] == c then 0 else 1 + IndexOf(s[1..], c)
  }

  /** The first `c` of `p + [c] + t`, when `p` has none, is right after `p`. */
  lemma IndexOfAfterPrefix(p: string, c: char, t: string)
    requires c !in p
    ensures c in p + [c] + t && IndexOf(p + [c] + t, c) == |p|
  {
    var s := p + [c] + t;
    assert s[|p|] == c;
    assert forall i :: 0 <= i < |p| ==> s[i] == p[i];
  }

  /** Rust's `str::trim_start`. */
  function TrimStart(s: string): (r: string)
    ensures |r| <= |s| && r == s[|s| - |r|..]
    ensures forall k :: 0 <= k < |s| - |r| ==> IsWhitespace(s[k])
    ensures r == [] || !IsWhitespace(r[0])
  {
    if s != [] && IsWhitespace(s[0]) then TrimStart(s[1..]) else s
  }

  /** Rust's `str::trim_end`. */
  function TrimEnd(s: string): (r: string)
    ensures |r| <= |s| && r == s[..|r|]
    ensures forall k :: |r| <= k < |s| ==> IsWhitespace(s[k])
    ensures r == [] || !IsWhitespace(r[|r| - 1])
  {
    if s != [] && IsWhitespace(s[|s| - 1]) then TrimEnd(s[..|s| - 1]) else s
  }

  /** Rust's `str::trim`: the text between the leading and the trailing
      white space. */
  function Trim(s: string): (r: string)
    ensures |r| <= |TrimStart(s)| <= |s|
    ensures r == [] || (!IsWhitespace(r[0]) && !IsWhitespace(r[|r| - 1]))
    ensures forall k :: 0 <= k < |s| - |TrimStart(s)| ==> IsWhitespace(s[k])
    ensures r == TrimStart(s)[..|r|]
  {
    TrimEnd(TrimStart(s))
  }

  /** Rust's `str::split` on one character: the pieces between the
      separators, at least one, none holding the separator. */
  function Split(s: string, c: char): (parts: seq<string>)
    ensures |parts| >= 1
    ensures forall i :: 0 <= i < |parts| ==> c !in parts[i]
    decreases |s|
  {
    if c in s then
      var k := IndexOf(s, c);
      [s[..k]] + Split(s[k + 1..], c)
    else [s]
  }

  /** `join` with a one-character separator. */
  function Join(parts: seq<string>, c: char): string {
    if parts == [] then [] else if |parts| == 1 then parts[0] else parts[0] + [c] + Join(parts[1..], c)
  }

  /** Joining the pieces restores the text. */
  lemma {:induction false} JoinSplit(s: string, c: char)
    ensures Join(Split(s, c), c) == s
    decreases |s|
  {
    if c in s {
      var k := IndexOf(s, c);
      var rest := s[k + 1..];
      var tail := Split(rest, c);
      JoinSplit(rest, c);
      assert Split(s, c) == [s[..k]] + tail;
      JoinCons(s[..k], tail, c);
      assert s == s[..k] + [c] + rest;
    }
  }

  /** Joining one more piece in front. */
  lemma JoinCons(head: string, tail: seq<string>, c: char)
    requires |tail| >= 1
    ensures Join([head] + tail, c) == head + [c] + Join(tail, c)
  {
    assert ([head] + tail)[1..] == tail;
  }

  /** Splitting a join of separator-free pieces gives the pieces back. */
  lemma {:induction false} SplitJoin(parts: seq<string>, c: char)
    requires |parts| >= 1
    requires forall i :: 0 <= i < |parts| ==> c !in parts[i]
    ensures Split(Join(parts, c), c) == parts
  {
    if |parts| > 1 {
      var head, rest := parts[0], parts[1..];
      assert parts == [head] + rest;
      JoinCons(head, rest, c);
      SplitAfterPrefix(head, c, Join(rest, c));
      assert forall i :: 0 <= i < |rest| ==> rest[i] == parts[i + 1];
      SplitJoin(rest, c);
    }
  }

  /** Splitting `p + [c] + t`, when `p` has no `c`, cuts off `p` first. */
  lemma SplitAfterPrefix(p: string, c: char, t: string)
    requires c !in p
    ensures Split(p + [c] + t, c) == [p] + Split(t, c)
  {
    IndexOfAfterPrefix(p, c, t);
    var s := p + [c] + t;
    assert s[..|p|] == p;
    assert s[|p| + 1..] == t;
  }

  /** Splitting takes nothing but characters of the text. */
  lemma {:induction false} SplitPartsFromText(s: string, c: char, i: nat, x: char)
    requires i < |Split(s, c)| && x in Split(s, c)[i]
    ensures x in s
    decreases |s|
  {
    if c in s {
      var k := IndexOf(s, c);
      if i > 0 {
        SplitPartsFromText(s[k + 1..], c, i - 1, x);
      }
    }
  }

  // ---------------------------------------------------------------------------
  // parse_line
  // ---------------------------------------------------------------------------

  /** The number of bracket characters on a line. */
  function BracketCount(line: string): nat {
    multiset(line)['('] + multiset(line)[')']
  }

  /** `parse_line`, positions and slices both by character. It never
      reports an error: a line that is not an attribute line gives `None`. */
  function ParseLine(line: string): (r: Option<(string, seq<string>)>)
    ensures r.Some? ==>
      && '(' in line && ')' in line
      && IndexOf(line, '(') < IndexOf(line, ')')
      && r.value.0 == Trim(line[..IndexOf(line, '(')])
      && |r.value.1| >= 1
      && Join(r.value.1, ',') == line[IndexOf(line, '(') + 1..IndexOf(line, ')')]
  {
    if |line| == 0 || !IsAsciiLower(line[0]) then None
    else if ')' !in line || '(' !in line then None
    else
      var close, open := IndexOf(line, ')'), IndexOf(line, '(');
      if close < open then None
      else if BracketCount(line) > 2 then None
      else
        var inner := line[open + 1..close];
        JoinSplit(inner, ',');
        Some((Trim(line[..open]), Split(inner, ',')))
  }

  /** Two occurrences make a count of at least two. */
  lemma OccursTwice(s: string, x: char, i: nat, j: nat)
    requires i < j < |s| && s[i] == x && s[j] == x
    ensures multiset(s)[x] >= 2
  {
    assert s == s[..j] + s[j..];
    assert s[..j][i] == x;
    assert s[j..][0] == x;
    assert multiset(s) == multiset(s[..j]) + multiset(s[j..]);
  }

  /** A character that occurs once is found where it occurs. */
  lemma OnlyOccurrence(s: string, x: char, i: nat)
    requires i < |s| && s[i] == x
    ensures multiset(s)[x] == 1 ==> IndexOf(s, x) == i
  {
    var k := IndexOf(s, x);
    if k < i {
      OccursTwice(s, x, k, i);
    }
  }

  /** A line is an attribute line exactly when it starts with a lower-case
      ASCII letter and holds one `(` followed, later, by one `)`. */
  lemma ParseLineAccepts(line: string)
    ensures ParseLine(line).Some? <==>
      && |line| > 0 && IsAsciiLower(line[0])
      && multiset(line)['('] == 1 && multiset(line)[')'] == 1
      && exists o, c :: 0 <= o < c < |line| && line[o] == '(' && line[c] == ')'
  {
    if |line| > 0 && IsAsciiLower(line[0]) && '(' in line && ')' in line {
      var close, open := IndexOf(line, ')'), IndexOf(line, '(');
      assert line[open] in multiset(line) && line[close] in multiset(line);
      if o, c :| 0 <= o < c < |line| && line[o] == '(' && line[c] == ')' {
        OnlyOccurrence(line, '(', o);
        OnlyOccurrence(line, ')', c);
      }
    }
  }

  // ---------------------------------------------------------------------------
  // parse_line as written: character positions used as byte offsets
  // ---------------------------------------------------------------------------

  /** The text after the first `n` UTF-8 bytes; `None` when `n` is past the
      end or inside a character (where Rust's slicing panics). */
  function ByteDrop(s: string, n: nat): Option<string> {
    if n == 0 then Some(s)
    else if s == [] || Utf8Width(s[0]) > n then None
    else ByteDrop(s[1..], n - Utf8Width(s[0]))
  }

  /** The first `n` UTF-8 bytes of the text, with the same failure cases. */
  function ByteTake(s: string, n: nat): Option<string> {
    if n == 0 then Some([])
    else if s == [] || Utf8Width(s[0]) > n then None
    else match ByteTake(s[1..], n - Utf8Width(s[0]))
      case None => None
      case Some(t) => Some([s[0]] + t)
  }

  /** Rust's `&s[lo..hi]` on a `str`: byte offsets; `None` is a panic. */
  function ByteSlice(s: string, lo: nat, hi: nat): Option<string> {
    if hi < lo then None
    else match ByteDrop(s, lo)
      case None => None
      case Some(t) => ByteTake(t, hi - lo)
  }

  /** Over an ASCII prefix, bytes and characters coincide. */
  lemma {:induction false} AsciiByteDrop(s: string, n: nat)
    requires n <= |s| && forall i :: 0 <= i < n ==> IsAscii(s[i])
    ensures ByteDrop(s, n) == Some(s[n..])
  {
    if n > 0 {
      AsciiByteDrop(s[1..], n - 1);
    }
  }

  lemma {:induction false} AsciiByteTake(s: string, n: nat)
    requires n <= |s| && forall i :: 0 <= i < n ==> IsAscii(s[i])
    ensures ByteTake(s, n) == Some(s[..n])
  {
    if n > 0 {
      AsciiByteTake(s[1..], n - 1);
      assert s[..n] == [s[0]] + s[1..][..n - 1];
    }
  }

  /** On ASCII text a byte slice is the character slice. */
  lemma AsciiByteSlice(s: string, lo: nat, hi: nat)
    requires lo <= hi <= |s| && forall i :: 0 <= i < |s| ==> IsAscii(s[i])
    ensures ByteSlice(s, lo, hi) == Some(s[lo..hi])
  {
    AsciiByteDrop(s, lo);
    AsciiByteTake(s[lo..], hi - lo);
    assert s[lo..][..hi - lo] == s[lo..hi];
  }

  datatype LineOutcome = Skipped | Parsed(attr: string, parts: seq<string>) | SlicePanic

  /** `parse_line` as the source writes it: the bracket positions are
      character counts, the slices take them as byte offsets. With a
      non-ASCII character before a bracket the slices either fall inside a
      character (a panic) or cut in the wrong place. */
  function ParseLineAsWritten(line: string): LineOutcome {
    if |line| == 0 || !IsAsciiLower(line[0]) then Skipped
    else if ')' !in line || '(' !in line then Skipped
    else
      var close, open := IndexOf(line, ')'), IndexOf(line, '(');
      if close < open then Skipped
      else if BracketCount(line) > 2 then Skipped
      else match (ByteSlice(line, 0, open), ByteSlice(line, open + 1, close))
        case (Some(head), Some(inner)) => Parsed(Trim(head), Split(inner, ','))
        case _ => SlicePanic
  }

  /** On an ASCII line the code as written and `ParseLine` agree. */
  lemma AsciiLineParsesAsWritten(line: string)
    requires forall i :: 0 <= i < |line| ==> IsAscii(line[i])
    ensures ParseLineAsWritten(line) ==
      match ParseLine(line)
      case None => Skipped
      case Some((attr, parts)) => Parsed(attr, parts)
  {
    if |line| > 0 && IsAsciiLower(line[0]) && ')' in line && '(' in line {
      var close, open := IndexOf(line, ')'), IndexOf(line, '(');
      if open < close {
        AsciiByteSlice(line, 0, open);
        AsciiByteSlice(line, open + 1, close);
      }
    }
  }

  /** `name(né)`: a one-part attribute line with a two-byte character
      just before the closing bracket. */
  const NameLine: string := "name(n\U{00E9})"

  /** `a\u00e9b(c)`: a one-part attribute line with a two-byte character
      in the attribute name. */
  const MisSliceLine: string := "a\U{00E9}b(c)"

  /** `NameLine` is `head(inner)` for a plain head and inner. */
  lemma NameLineParts()
    ensures NameLine == "name" + ['('] + "n\U{00E9}" + [')']
    ensures |"name"| == 4 && IsAsciiLower("name"[0]) && '(' !in "name" && ')' !in "name"
    ensures |"n\U{00E9}"| == 2 && '(' !in "n\U{00E9}" && ')' !in "n\U{00E9}" && ',' !in "n\U{00E9}"
  {
  }

  /** `MisSliceLine` is `head(inner)` for a plain head and inner. */
  lemma MisSliceLineParts()
    ensures MisSliceLine == "a\U{00E9}b" + ['('] + "c" + [')']
    ensures |"a\U{00E9}b"| == 3 && IsAsciiLower("a\U{00E9}b"[0]) && '(' !in "a\U{00E9}b" && ')' !in "a\U{00E9}b"
    ensures |"c"| == 1 && '(' !in "c" && ')' !in "c" && ',' !in "c"
  {
  }

  /** `name(né)`: `é` takes two bytes, so the inner slice ends inside it and
      the code as written panics, where the line is an attribute line with
      the one part `né`. */
  lemma NonAsciiLinePanics()
    ensures ParseLineAsWritten(NameLine) == SlicePanic
    ensures ParseLine(NameLine) == Some(("name", ["n\U{00E9}"]))
  {
    NonAsciiBrackets();
    NonAsciiSlices();
    NonAsciiParsed();
  }

  lemma NonAsciiParsed()
    ensures ParseLine(NameLine) == Some(("name", ["n\U{00E9}"]))
  {
    NameTrims();
    NameLineParts();
    OnePartLine("name", "n\U{00E9}");
  }

  /** A line `head(inner)` with a lower-case first letter, no other
      bracket and no comma inside is the attribute `head`, trimmed, with the
      one part `inner`. */
  lemma OnePartLine(head: string, inner: string)
    requires |head| > 0 && IsAsciiLower(head[0])
    requires '(' !in head && ')' !in head && '(' !in inner && ')' !in inner && ',' !in inner
    ensures ParseLine(head + ['('] + inner + [')']) == Some((Trim(head), [inner]))
  {
    var line := head + ['('] + inner + [')'];
    var open, close := |head|, |head| + 1 + |inner|;
    BracketedLine(head, inner);
    assert line[..open] == head;
    assert line[open + 1..close] == inner;
    assert Split(inner, ',') == [inner];
    AcceptedLine(line);
  }

  /** In `head(inner)` with no other bracket, the brackets are found right
      after `head` and right after `inner`, and there are two of them. */
  lemma BracketedLine(head: string, inner: string)
    requires '(' !in head && ')' !in head && '(' !in inner && ')' !in inner
    ensures var line := head + ['('] + inner + [')'];
      && '(' in line && IndexOf(line, '(') == |head|
      && ')' in line && IndexOf(line, ')') == |head| + 1 + |inner|
      && BracketCount(line) == 2
  {
    var line := head + ['('] + inner + [')'];
    assert line == head + ['('] + (inner + [')']);
    IndexOfAfterPrefix(head, '(', inner + [')']);
    assert line == (head + ['('] + inner) + [')'] + [];
    IndexOfAfterPrefix(head + ['('] + inner, ')', []);
    assert multiset(line) == multiset(head) + multiset(['(']) + multiset(inner) + multiset([')']);
  }

  /** The value of `ParseLine` on a line that passes every gate. */
  lemma AcceptedLine(line: string)
    requires |line| > 0 && IsAsciiLower(line[0]) && '(' in line && ')' in line
    requires IndexOf(line, '(') < IndexOf(line, ')') && BracketCount(line) <= 2
    ensures ParseLine(line) ==
      Some((Trim(line[..IndexOf(line, '(')]), Split(line[IndexOf(line, '(') + 1..IndexOf(line, ')')], ',')))
  {
  }

  /** Where the brackets of `name(né)` are, counted in characters. */
  lemma NonAsciiBrackets()
    ensures '(' in NameLine && IndexOf(NameLine, '(') == 4
    ensures ')' in NameLine && IndexOf(NameLine, ')') == 7
    ensures BracketCount(NameLine) == 2
  {
    NameLineParts();
    BracketedLine("name", "n\U{00E9}");
  }

  /** The two byte slices of `name(né)`: the attribute is whole, the inner
      text ends inside `é`. */
  lemma NonAsciiSlices()
    ensures ByteSlice(NameLine, 0, 4) == Some("name")
    ensures ByteSlice(NameLine, 5, 7) == None
  {
    var line := NameLine;
    AsciiByteDrop(line, 0);
    AsciiByteTake(line, 4);
    assert line[..4] == "name";
    AsciiByteDrop(line, 5);
    var rest := line[5..];
    assert rest[1..] == [line[6], line[7]];
    assert Utf8Width(line[6]) == 2;
    assert ByteTake(rest[1..], 1) == None;
    assert ByteTake(rest, 2) == None;
  }

  lemma NameTrims()
    ensures Trim("name") == "name"
  {
    assert TrimStart("name") == "name";
    assert TrimEnd("name") == "name";
  }

  /** `a\u00e9b(c)`: the brackets sit at characters 3 and 5, which as byte
      offsets both fall on character boundaries, so the code as written does
      not panic but cuts in the wrong places: attribute `a\u00e9` and the
      one part `(`, where the line is attribute `a\u00e9b` with the part `c`. */
  lemma NonAsciiLineMisSlices()
    ensures ParseLineAsWritten(MisSliceLine) == Parsed("a\U{00E9}", ["("])
    ensures ParseLine(MisSliceLine) == Some(("a\U{00E9}b", ["c"]))
  {
    MisSliceAsWritten();
    MisSliceParsed();
  }

  lemma MisSliceAsWritten()
    ensures ParseLineAsWritten(MisSliceLine) == Parsed("a\U{00E9}", ["("])
  {
    MisSliceBrackets();
    MisSlices();
    MisSlicePieces();
  }

  /** The gates and the pieces of the mis-sliced `a\u00e9b(c)`. */
  lemma MisSlicePieces()
    ensures |MisSliceLine| > 0 && IsAsciiLower(MisSliceLine[0])
    ensures Trim("a\U{00E9}") == "a\U{00E9}"
    ensures Split("(", ',') == ["("]
  {
    TrimUnchanged("a\U{00E9}");
  }

  lemma MisSliceParsed()
    ensures ParseLine(MisSliceLine) == Some(("a\U{00E9}b", ["c"]))
  {
    TrimUnchanged("a\U{00E9}b");
    MisSliceLineParts();
    OnePartLine("a\U{00E9}b", "c");
  }

  /** Text that neither starts nor ends with white space trims to itself. */
  lemma TrimUnchanged(s: string)
    requires s != [] && !IsWhitespace(s[0]) && !IsWhitespace(s[|s| - 1])
    ensures Trim(s) == s
  {
    assert TrimStart(s) == s;
  }

  /** Where the brackets of `a\u00e9b(c)` are, counted in characters. */
  lemma MisSliceBrackets()
    ensures '(' in MisSliceLine && IndexOf(MisSliceLine, '(') == 3
    ensures ')' in MisSliceLine && IndexOf(MisSliceLine, ')') == 5
    ensures BracketCount(MisSliceLine) == 2
  {
    MisSliceLineParts();
    BracketedLine("a\U{00E9}b", "c");
  }

  /** The two byte slices of `a\u00e9b(c)`: bytes 0 to 3 are `a\u00e9`, bytes
      4 to 5 are `(`. */
  lemma MisSlices()
    ensures ByteSlice(MisSliceLine, 0, 3) == Some("a\U{00E9}")
    ensures ByteSlice(MisSliceLine, 4, 5) == Some("(")
  {
    var line := MisSliceLine;
    assert Utf8Width(line[0]) == 1 && Utf8Width(line[1]) == 2 && Utf8Width(line[2]) == 1;
    assert line[1..] == "\U{00E9}b(c)" && line[2..] == "b(c)" && line[3..] == "(c)";
    var t1, t2 := line[1..], line[2..];
    assert t1[0] == '\U{00E9}' && t1[1..] == t2;
    assert ByteTake(t2, 0) == Some([]);
    assert ByteTake(t1, 2) == Some([t1[0]] + []);
    assert [t1[0]] + [] == "\U{00E9}";
    assert ByteTake(line, 3) == Some([line[0]] + "\U{00E9}");
    assert [line[0]] + "\U{00E9}" == "a\U{00E9}";
    assert ByteDrop(line[3..], 0) == Some("(c)");
    assert ByteDrop(line[2..], 1) == Some("(c)");
    assert ByteDrop(line[1..], 3) == Some("(c)");
    assert ByteDrop(line, 4) == Some("(c)");
    AsciiByteTake("(c)", 1);
    assert "(c)"[..1] == "(";
  }

  // ---------------------------------------------------------------------------
  // parse_file
  // ---------------------------------------------------------------------------

  predicate NoAsciiUpper(s: string) {
    forall i :: 0 <= i < |s| ==> !IsAsciiUpper(s[i])
  }

  /** The lines of the content, ASCII-lowercased. */
  function Lines(content: string): (lines: seq<string>)
    ensures |lines| == |Split(content, '\n')|
    ensures forall i :: 0 <= i < |lines| ==> lines[i] == LowerAscii(Split(content, '\n')[i])
    ensures forall i :: 0 <= i < |lines| ==> NoAsciiUpper(lines[i])
  {
    var raw := Split(content, '\n');
    seq(|raw|, i requires 0 <= i < |raw| => LowerAscii(raw[i]))
  }

  /** An attribute line as `parse_line` returns it: the attribute and the
      parts. */
  type Attribute = (string, seq<string>)

  /** What `parse_line` makes of each line. */
  function ParsedLines(lines: seq<string>): (ps: seq<Option<Attribute>>)
    ensures |ps| == |lines|
    ensures forall i :: 0 <= i < |lines| ==> ps[i] == ParseLine(lines[i])
  {
    seq(|lines|, i requires 0 <= i < |lines| => ParseLine(lines[i]))
  }

  /** The fields gathered so far: the loop's local variables. */
  datatype Fields = Fields(
    name: Option<string>,
    author: Option<string>,
    description: Option<string>,
    soundtrack: Option<(string, string)>,
    tags: seq<string>)

  const NoFields := Fields(None, None, None, None, [])

  predicate IsAuthorKey(attr: string) {
    attr == "author" || attr == "carmaker" || attr == "stagemaker"
  }

  predicate IsDescriptionKey(attr: string) {
    attr == "desc" || attr == "description"
  }

  const MusicPathReason := "Must have one folder and one filename."

  /** A `soundtrack(...)` line without exactly two parts. */
  predicate BadSoundtrack(p: Option<Attribute>) {
    p.Some? && p.value.0 == "soundtrack" && |p.value.1| != 2
  }

  /** The joined parts of an attribute line. */
  function Value(p: Attribute): string {
    Join(p.1, ',')
  }

  /** One turn of the loop of `parse_file`. */
  function Step(st: Fields, p: Option<Attribute>, expectSoundtrack: bool): Result<Fields, ParseError> {
    if p.None? then Ok(st)
    else
      var (attr, parts) := p.value;
      if attr == "name" then Ok(st.(name := Some(Value(p.value))))
      else if IsAuthorKey(attr) then Ok(st.(author := Some(Value(p.value))))
      else if attr == "tag" then Ok(st.(tags := st.tags + [Value(p.value)]))
      else if IsDescriptionKey(attr) then Ok(st.(description := Some(Value(p.value))))
      else if attr == "soundtrack" && expectSoundtrack then
        if |parts| != 2 then Err(InvalidMusicPath(MusicPathReason))
        else Ok(st.(soundtrack := Some((parts[0], parts[1]))))
      else Ok(st)
  }

  /** The loop over all lines, stopping at the first error. */
  function Fold(st: Fields, ps: seq<Option<Attribute>>, expectSoundtrack: bool): Result<Fields, ParseError>
    decreases |ps|
  {
    if ps == [] then Ok(st)
    else match Step(st, ps[0], expectSoundtrack)
      case Err(e) => Err(e)
      case Ok(next) => Fold(next, ps[1..], expectSoundtrack)
  }

  /** `parse_file`, as a function of the content. */
  function ParseFileResult(content: string, expectSoundtrack: bool): Result<ArchiveInfo, ParseError> {
    match Fold(NoFields, ParsedLines(Lines(content)), expectSoundtrack)
    case Err(e) => Err(e)
    case Ok(st) =>
      if st.name.None? then Err(MissingField("Name"))
      else Ok(ArchiveInfo(st.name.value, st.author, st.soundtrack, st.description, st.tags))
  }

  /** `parse_file`: the loop of the source over the lines. */
  method ParseFile(content: string, expectSoundtrack: bool) returns (r: Result<ArchiveInfo, ParseError>)
    ensures r == ParseFileResult(content, expectSoundtrack)
  {
    var lines := Lines(content);
    ghost var ps := ParsedLines(lines);
    var name: Option<string> := None;
    var author: Option<string> := None;
    var description: Option<string> := None;
    var soundtrack: Option<(string, string)> := None;
    var tags: seq<string> := [];
    var i := 0;
    while i < |lines|
      invariant 0 <= i <= |lines|
      invariant Fold(NoFields, ps, expectSoundtrack)
        == Fold(Fields(name, author, description, soundtrack, tags), ps[i..], expectSoundtrack)
    {
      ghost var before := Fields(name, author, description, soundtrack, tags);
      assert ps[i..][1..] == ps[i + 1..];
      var parsed := ParseLine(lines[i]);
      assert parsed == ps[i];
      if parsed.Some? {
        var (attr, parts) := parsed.value;
        if attr == "name" {
          name := Some(Join(parts, ','));
        } else if attr == "author" || attr == "carmaker" || attr == "stagemaker" {
          author := Some(Join(parts, ','));
        } else if attr == "tag" {
          tags := tags + [Join(parts, ',')];
        } else if attr == "desc" || attr == "description" {
          description := Some(Join(parts, ','));
        } else if attr == "soundtrack" && expectSoundtrack {
          if |parts| != 2 {
            assert Step(before, parsed, expectSoundtrack).Err?;
            return Err(InvalidMusicPath(MusicPathReason));
          }
          soundtrack := Some((parts[0], parts[1]));
        }
      }
      assert Step(before, parsed, expectSoundtrack) == Ok(Fields(name, author, description, soundtrack, tags));
      i := i + 1;
    }
    assert ps[i..] == [];
    if name.None? {
      return Err(MissingField("Name"));
    }
    return Ok(ArchiveInfo(name.value, author, soundtrack, description, tags));
  }

  // ---------------------------------------------------------------------------
  // What parse_file promises
  // ---------------------------------------------------------------------------

  /** The joined parts of the last attribute line whose attribute `key`
      accepts. */
  function LastValue(ps: seq<Option<Attribute>>, key: string -> bool): Option<string>
    decreases |ps|
  {
    if ps == [] then None
    else Latest(ValueOf(ps[0], key), LastValue(ps[1..], key))
  }

  /** The value of one line, when its attribute satisfies `key`. */
  function ValueOf(p: Option<Attribute>, key: string -> bool): Option<string> {
    if p.Some? && key(p.value.0) then Some(Value(p.value)) else None
  }

  /** The (folder, file name) of one two-part `soundtrack(...)` line. */
  function SoundtrackOf(p: Option<Attribute>): Option<(string, string)> {
    if p.Some? && p.value.0 == "soundtrack" && |p.value.1| == 2
    then Some((p.value.1[0], p.value.1[1])) else None
  }

  /** The joined parts of every `tag(...)` line, in line order. */
  function TagValues(ps: seq<Option<Attribute>>): seq<string>
    decreases |ps|
  {
    if ps == [] then []
    else if ps[0].Some? && ps[0].value.0 == "tag" then [Value(ps[0].value)] + TagValues(ps[1..])
    else TagValues(ps[1..])
  }

  /** The (folder, file name) of the last `soundtrack(...)` line. */
  function LastSoundtrack(ps: seq<Option<Attribute>>): Option<(string, string)>
    decreases |ps|
  {
    if ps == [] then None
    else Latest(SoundtrackOf(ps[0]), LastSoundtrack(ps[1..]))
  }

  function Latest<T>(earlier: Option<T>, later: Option<T>): Option<T> {
    if later.Some? then later else earlier
  }

  function IsName(attr: string): bool { attr == "name" }
  function IsAuthor(attr: string): bool { IsAuthorKey(attr) }
  function IsDescription(attr: string): bool { IsDescriptionKey(attr) }

  /** The loop fails exactly when soundtracks are expected and some
      `soundtrack(...)` line does not have two parts, and then with
      `InvalidMusicPath`. */
  lemma {:induction false} FoldFails(st: Fields, ps: seq<Option<Attribute>>, expectSoundtrack: bool)
    ensures Fold(st, ps, expectSoundtrack).Err? <==>
      expectSoundtrack && exists i :: 0 <= i < |ps| && BadSoundtrack(ps[i])
    ensures Fold(st, ps, expectSoundtrack).Err? ==>
      Fold(st, ps, expectSoundtrack).error == InvalidMusicPath(MusicPathReason)
    decreases |ps|
  {
    if ps != [] {
      var s := Step(st, ps[0], expectSoundtrack);
      if s.Ok? {
        FoldFails(s.value, ps[1..], expectSoundtrack);
        if i :| 0 <= i < |ps| && BadSoundtrack(ps[i]) {
          if i == 0 {
            assert !expectSoundtrack;
          } else {
            assert ps[1..][i - 1] == ps[i];
          }
        }
        if i :| 0 <= i < |ps[1..]| && BadSoundtrack(ps[1..][i]) {
          assert ps[i + 1] == ps[1..][i];
        }
      }
    }
  }

  /** What the loop gathers: for the name, the author and the description
      the last matching line wins; the tags are every `tag(...)` line in
      order; the soundtrack is the last two-part `soundtrack(...)` line and
      is only read when expected. */
  lemma {:induction false} FoldGathers(st: Fields, ps: seq<Option<Attribute>>, expectSoundtrack: bool)
    requires Fold(st, ps, expectSoundtrack).Ok?
    ensures var f := Fold(st, ps, expectSoundtrack).value;
      && f.name == Latest(st.name, LastValue(ps, IsName))
      && f.author == Latest(st.author, LastValue(ps, IsAuthor))
      && f.description == Latest(st.description, LastValue(ps, IsDescription))
      && f.tags == st.tags + TagValues(ps)
      && f.soundtrack == (if expectSoundtrack then Latest(st.soundtrack, LastSoundtrack(ps)) else st.soundtrack)
    decreases |ps|
  {
    if ps != [] {
      var next := Step(st, ps[0], expectSoundtrack).value;
      StepGathers(st, ps[0], expectSoundtrack);
      FoldGathers(next, ps[1..], expectSoundtrack);
      assert st.tags + TagValues(ps) == next.tags + TagValues(ps[1..]);
    }
  }

  /** What one successful turn of the loop records. */
  lemma StepGathers(st: Fields, p: Option<Attribute>, expectSoundtrack: bool)
    requires Step(st, p, expectSoundtrack).Ok?
    ensures var n := Step(st, p, expectSoundtrack).value;
      && n.name == Latest(st.name, ValueOf(p, IsName))
      && n.author == Latest(st.author, ValueOf(p, IsAuthor))
      && n.description == Latest(st.description, ValueOf(p, IsDescription))
      && n.tags == st.tags + (if p.Some? && p.value.0 == "tag" then [Value(p.value)] else [])
      && n.soundtrack == (if expectSoundtrack then Latest(st.soundtrack, SoundtrackOf(p)) else st.soundtrack)
  {
  }

  /** `MissingField("Name")` comes exactly when the loop succeeds and no
      `name(...)` line exists. */
  lemma MissingNameIffNoNameLine(content: string, expectSoundtrack: bool)
    ensures var ps := ParsedLines(Lines(content));
      ParseFileResult(content, expectSoundtrack) == Err(MissingField("Name")) <==>
        Fold(NoFields, ps, expectSoundtrack).Ok? && LastValue(ps, IsName).None?
  {
    var ps := ParsedLines(Lines(content));
    FoldFails(NoFields, ps, expectSoundtrack);
    if Fold(NoFields, ps, expectSoundtrack).Ok? {
      FoldGathers(NoFields, ps, expectSoundtrack);
    }
  }

  /** A successful parse: the name is the last `name(...)` line's text, the
      author and description the last of theirs, the tags all `tag(...)`
      lines in order, and the soundtrack, read only when expected, the last
      `soundtrack(...)` line's folder and file name; when expected, no
      `soundtrack(...)` line lacks its two parts. */
  lemma ParsedFields(content: string, expectSoundtrack: bool)
    requires ParseFileResult(content, expectSoundtrack).Ok?
    ensures var info := ParseFileResult(content, expectSoundtrack).value;
      var ps := ParsedLines(Lines(content));
      && Some(info.name) == LastValue(ps, IsName)
      && info.author == LastValue(ps, IsAuthor)
      && info.description == LastValue(ps, IsDescription)
      && info.tags == TagValues(ps)
      && info.soundtrack == (if expectSoundtrack then LastSoundtrack(ps) else None)
      && (expectSoundtrack ==> forall i :: 0 <= i < |ps| ==> !BadSoundtrack(ps[i]))
  {
    var ps := ParsedLines(Lines(content));
    FoldFails(NoFields, ps, expectSoundtrack);
    FoldGathers(NoFields, ps, expectSoundtrack);
  }

  /** A soundtrack line without two parts is an error exactly when
      soundtracks are expected. */
  lemma BadSoundtrackFails(content: string, expectSoundtrack: bool)
    ensures var ps := ParsedLines(Lines(content));
      ParseFileResult(content, expectSoundtrack) == Err(InvalidMusicPath(MusicPathReason)) <==>
        expectSoundtrack && exists i :: 0 <= i < |ps| && BadSoundtrack(ps[i])
  {
    FoldFails(NoFields, ParsedLines(Lines(content)), expectSoundtrack);
  }

  /** The attribute and the parts of a lower-case line are lower case. */
  lemma ParseLineKeepsLower(line: string)
    requires NoAsciiUpper(line) && ParseLine(line).Some?
    ensures NoAsciiUpper(ParseLine(line).value.0)
    ensures NoAsciiUpper(Join(ParseLine(line).value.1, ','))
    ensures forall i :: 0 <= i < |ParseLine(line).value.1| ==> NoAsciiUpper(ParseLine(line).value.1[i])
  {
    var open, close := IndexOf(line, '('), IndexOf(line, ')');
    var head, inner := line[..open], line[open + 1..close];
    SliceKeepsLower(line, 0, open);
    SliceKeepsLower(line, open + 1, close);
    ParseLineParts(line);
    PiecesKeepLower(head, inner);
    assert ParseLine(line).value == (Trim(head), Split(inner, ','));
  }

  /** Trimming the attribute and splitting the bracketed text keep text
      free of upper-case letters. */
  lemma PiecesKeepLower(head: string, inner: string)
    requires NoAsciiUpper(head) && NoAsciiUpper(inner)
    ensures NoAsciiUpper(Trim(head))
    ensures NoAsciiUpper(Join(Split(inner, ','), ','))
    ensures forall i :: 0 <= i < |Split(inner, ',')| ==> NoAsciiUpper(Split(inner, ',')[i])
  {
    TrimKeepsLower(head);
    JoinSplit(inner, ',');
    forall i | 0 <= i < |Split(inner, ',')| ensures NoAsciiUpper(Split(inner, ',')[i]) {
      SplitKeepsLower(inner, ',', i);
    }
  }

  /** The parts of an attribute line are the pieces of its bracketed text. */
  lemma ParseLineParts(line: string)
    requires ParseLine(line).Some?
    ensures ParseLine(line).value.1 == Split(line[IndexOf(line, '(') + 1..IndexOf(line, ')')], ',')
  {
  }

  lemma SliceKeepsLower(s: string, lo: nat, hi: nat)
    requires NoAsciiUpper(s) && lo <= hi <= |s|
    ensures NoAsciiUpper(s[lo..hi])
  {
    assert forall k :: 0 <= k < hi - lo ==> s[lo..hi][k] == s[lo + k];
  }

  /** Trimming takes nothing but characters of the text. */
  lemma TrimKeepsLower(s: string)
    requires NoAsciiUpper(s)
    ensures NoAsciiUpper(Trim(s))
  {
    var t := TrimStart(s);
    forall k | 0 <= k < |t| ensures !IsAsciiUpper(t[k]) {
      assert t[k] == s[|s| - |t| + k];
    }
    var r := TrimEnd(t);
    forall k | 0 <= k < |r| ensures !IsAsciiUpper(r[k]) {
      assert r[k] == t[k];
    }
  }

  /** A piece of a split has no upper-case letter when the text has none. */
  lemma SplitKeepsLower(s: string, c: char, i: nat)
    requires NoAsciiUpper(s) && i < |Split(s, c)|
    ensures NoAsciiUpper(Split(s, c)[i])
  {
    var part := Split(s, c)[i];
    forall k | 0 <= k < |part| ensures !IsAsciiUpper(part[k]) {
      SplitPartsFromText(s, c, i, part[k]);
    }
  }

  predicate FieldsLower(st: Fields) {
    && (st.name.Some? ==> NoAsciiUpper(st.name.value))
    && (st.author.Some? ==> NoAsciiUpper(st.author.value))
    && (st.description.Some? ==> NoAsciiUpper(st.description.value))
    && (st.soundtrack.Some? ==> NoAsciiUpper(st.soundtrack.value.0) && NoAsciiUpper(st.soundtrack.value.1))
    && (forall i :: 0 <= i < |st.tags| ==> NoAsciiUpper(st.tags[i]))
  }

  predicate AttributeLower(p: Option<Attribute>) {
    p.Some? ==>
      && NoAsciiUpper(p.value.0)
      && (forall i :: 0 <= i < |p.value.1| ==> NoAsciiUpper(p.value.1[i]))
      && NoAsciiUpper(Value(p.value))
  }

  lemma {:induction false} FoldKeepsLower(st: Fields, ps: seq<Option<Attribute>>, expectSoundtrack: bool)
    requires FieldsLower(st) && forall i :: 0 <= i < |ps| ==> AttributeLower(ps[i])
    requires Fold(st, ps, expectSoundtrack).Ok?
    ensures FieldsLower(Fold(st, ps, expectSoundtrack).value)
    decreases |ps|
  {
    if ps != [] {
      var next := Step(st, ps[0], expectSoundtrack).value;
      StepKeepsLower(st, ps[0], expectSoundtrack);
      var rest := ps[1..];
      assert forall i :: 0 <= i < |rest| ==> rest[i] == ps[i + 1];
      FoldKeepsLower(next, rest, expectSoundtrack);
    }
  }

  /** One turn of the loop records only lower-case text from lower-case text. */
  lemma StepKeepsLower(st: Fields, p: Option<Attribute>, expectSoundtrack: bool)
    requires FieldsLower(st) && AttributeLower(p) && Step(st, p, expectSoundtrack).Ok?
    ensures FieldsLower(Step(st, p, expectSoundtrack).value)
  {
    if p.Some? {
      var n := Step(st, p, expectSoundtrack).value;
      if p.value.0 == "tag" {
        assert n.tags == st.tags + [Value(p.value)];
      } else {
        assert n.tags == st.tags;
      }
    }
  }

  /** The content is lowercased before parsing, so nothing parsed holds an
      ASCII upper-case letter. */
  lemma ParsedTextIsLower(content: string, expectSoundtrack: bool)
    requires ParseFileResult(content, expectSoundtrack).Ok?
    ensures var info := ParseFileResult(content, expectSoundtrack).value;
      && NoAsciiUpper(info.name)
      && (info.author.Some? ==> NoAsciiUpper(info.author.value))
      && (info.description.Some? ==> NoAsciiUpper(info.description.value))
      && (info.soundtrack.Some? ==> NoAsciiUpper(info.soundtrack.value.0) && NoAsciiUpper(info.soundtrack.value.1))
      && (forall i :: 0 <= i < |info.tags| ==> NoAsciiUpper(info.tags[i]))
  {
    var lines := Lines(content);
    var ps := ParsedLines(lines);
    forall i | 0 <= i < |ps| ensures AttributeLower(ps[i]) {
      if ps[i].Some? {
        ParseLineKeepsLower(lines[i]);
      }
    }
    FoldKeepsLower(NoFields, ps, expectSoundtrack);
  }
}
