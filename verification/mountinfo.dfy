/**
 The mount-table reader of docker/runner-post-job-workspace-prune.py, against the format that
 proc(5) gives for `/proc/pid/mountinfo`: text in, snapshot of mounts out.
 Paths are plain strings, as the kernel prints them, already normalized.
 */
module Mountinfo {
  import opened Wrappers
  import opened Decimal

  datatype MountPoint = MountPoint(path: string, fstype: string, root: string)

  datatype ParseError = Unreadable | NoSeparator | InvalidMountinfo | InvalidMountPoint | InvalidIdentity | MissingRoot

  // ----- Text, as Python splits it -----------------------------------------------------------

  /** `str.splitlines` boundaries. */
  predicate IsLineBreak(c: char) {
    || '\n' <= c <= '\r'
    || '\U{001C}' <= c <= '\U{001E}'
    || c == '\U{0085}' || c == '\U{2028}' || c == '\U{2029}'
  }

  /** `str.isspace`, which decides where `str.split` cuts. */
  predicate IsSpace(c: char) {
    || '\t' <= c <= '\r'
    || '\U{001C}' <= c <= ' '
    || c == '\U{0085}' || c == '\U{00A0}' || c == '\U{1680}'
    || '\U{2000}' <= c <= '\U{200A}'
    || c == '\U{2028}' || c == '\U{2029}' || c == '\U{202F}' || c == '\U{205F}' || c == '\U{3000}'
  }

  /** The length of the first line. */
  function LineLength(s: string): (n: nat)
    ensures n <= |s| && (n < |s| ==> IsLineBreak(s[n])) && forall i :: 0 <= i < n ==> !IsLineBreak(s[i])
  {
    if s == [] || IsLineBreak(s[0]) then 0 else 1 + LineLength(s[1..])
  }

  function SplitLines(s: string): seq<string>
    decreases |s|
  {
    if s == [] then []
    else
      var n := LineLength(s);
      if n == |s| then [s]
      else
        var next := if s[n] == '\r' && n + 1 < |s| && s[n + 1] == '\n' then n + 2 else n + 1;
        [s[..n]] + SplitLines(s[next..])
  }

  function WordLength(s: string): (n: nat)
    ensures n <= |s| && (s != [] && !IsSpace(s[0]) ==> n > 0)
  {
    if s == [] || IsSpace(s[0]) then 0 else 1 + WordLength(s[1..])
  }

  function Words(s: string): seq<string>
    decreases |s|
  {
    if s == [] then []
    else if IsSpace(s[0]) then Words(s[1..])
    else [s[..WordLength(s)]] + Words(s[WordLength(s)..])
  }

  const SEPARATOR := " - "

  /** `split(" - ", 1)`: around the first separator, if there is one. */
  function SplitOnce(s: string): Option<(string, string)>
    decreases |s|
  {
    if |s| < 3 then None
    else if s[..3] == SEPARATOR then Some(("", s[3..]))
    else
      match SplitOnce(s[1..])
      case None => None
      case Some((before, after)) => Some(([s[0]] + before, after))
  }

  predicate IsOctal(c: char) {
    '0' <= c <= '7'
  }

  predicate StartsWithEscape(s: string) {
    |s| >= 4 && s[0] == '\\' && IsOctal(s[1]) && IsOctal(s[2]) && IsOctal(s[3])
  }

  function OctalChar(a: char, b: char, c: char): char
    requires IsOctal(a) && IsOctal(b) && IsOctal(c)
  {
    (64 * (a as int - '0' as int) + 8 * (b as int - '0' as int) + (c as int - '0' as int)) as char
  }

  /** `re.sub` of every backslash followed by three octal digits. */
  function Unescape(s: string): string
    decreases |s|
  {
    if s == [] then []
    else if StartsWithEscape(s) then [OctalChar(s[1], s[2], s[3])] + Unescape(s[4..])
    else [s[0]] + Unescape(s[1..])
  }

  /** Digits with single underscores between them. */
  predicate IsPythonDigits(s: string) {
    && s != [] && IsDigit(s[0]) && IsDigit(s[|s| - 1])
    && (forall i :: 0 <= i < |s| ==> IsDigit(s[i]) || s[i] == '_')
    && (forall i :: 0 <= i < |s| - 1 ==> s[i] != '_' || s[i + 1] != '_')
  }

  function DigitsOnly(s: string): (r: string)
    requires forall i :: 0 <= i < |s| ==> IsDigit(s[i]) || s[i] == '_'
    ensures AllDigits(r)
  {
    if s == [] then []
    else DigitsOnly(s[..|s| - 1]) + (if s[|s| - 1] == '_' then [] else [s[|s| - 1]])
  }

  /** `int(word)` for ASCII words: an optional sign, then digits. */
  function ParseInt(s: string): Option<int> {
    var digits := if s != [] && (s[0] == '+' || s[0] == '-') then s[1..] else s;
    if !IsPythonDigits(digits) then None
    else
      var n: int := Value(DigitsOnly(digits));
      Some(if s[0] == '-' then -n else n)
  }

  // ----- The reader --------------------------------------------------------------------------

  function ParseLine(line: string): Result<(int, MountPoint), ParseError> {
    match SplitOnce(line)
    case None => Err(NoSeparator)
    case Some((before, after)) =>
      var fields, filesystem := Words(before), Words(after);
      if |fields| < 6 || |filesystem| < 3 then Err(InvalidMountinfo)
      else
        var path := Unescape(fields[4]);
        if path == [] || path[0] != '/' then Err(InvalidMountPoint)
        else
          var id := ParseInt(fields[0]);
          if id.None? || id.value <= 0 then Err(InvalidIdentity)
          else Ok((id.value, MountPoint(path, filesystem[0], fields[3])))
  }

  type Record = Result<(int, MountPoint), ParseError>

  function ParseLines(lines: seq<string>): (rs: seq<Record>)
    ensures |rs| == |lines| && forall i :: 0 <= i < |lines| ==> rs[i] == ParseLine(lines[i])
  {
    if lines == [] then [] else ParseLines(lines[..|lines| - 1]) + [ParseLine(lines[|lines| - 1])]
  }

  predicate AllParse(rs: seq<Record>) {
    forall i :: 0 <= i < |rs| ==> rs[i].Ok?
  }

  predicate DistinctIds(rs: seq<Record>)
    requires AllParse(rs)
  {
    forall i, j :: 0 <= i < j < |rs| ==> rs[i].value.0 != rs[j].value.0
  }

  predicate HasRoot(rs: seq<Record>)
    requires AllParse(rs)
  {
    exists i :: 0 <= i < |rs| && rs[i].value.1.path == "/"
  }

  /** The snapshot holds exactly one mount per record, under that record's id. */
  ghost predicate IsSnapshot(rs: seq<Record>, mounts: map<int, MountPoint>)
    requires AllParse(rs)
  {
    && (forall i :: 0 <= i < |rs| ==> rs[i].value.0 in mounts && mounts[rs[i].value.0] == rs[i].value.1)
    && (forall id :: id in mounts ==> exists i :: 0 <= i < |rs| && rs[i].value.0 == id)
  }

  lemma SnapshotGrows(rs: seq<Record>, r: Record, mounts: map<int, MountPoint>)
    requires AllParse(rs) && DistinctIds(rs) && IsSnapshot(rs, mounts)
    requires r.Ok? && r.value.0 !in mounts
    ensures AllParse(rs + [r]) && DistinctIds(rs + [r]) && IsSnapshot(rs + [r], mounts[r.value.0 := r.value.1])
  {
    var more := rs + [r];
    var updated := mounts[r.value.0 := r.value.1];
    forall k | k in updated ensures exists i :: 0 <= i < |more| && more[i].value.0 == k {
      if k == r.value.0 {
        assert more[|rs|] == r;
      } else {
        var i :| 0 <= i < |rs| && rs[i].value.0 == k;
        assert more[i] == rs[i];
      }
    }
  }

  lemma RepeatedId(rs: seq<Record>, i: nat, mounts: map<int, MountPoint>)
    requires i < |rs| && AllParse(rs[..i]) && IsSnapshot(rs[..i], mounts)
    requires rs[i].Ok? && rs[i].value.0 in mounts
    ensures AllParse(rs) ==> !DistinctIds(rs)
  {
    var k :| 0 <= k < i && rs[..i][k].value.0 == rs[i].value.0;
    assert rs[..i][k] == rs[k];
  }

  lemma RootIffSnapshotHasRoot(rs: seq<Record>, mounts: map<int, MountPoint>)
    requires AllParse(rs) && IsSnapshot(rs, mounts)
    ensures HasRoot(rs) <==> exists id :: id in mounts && mounts[id].path == "/"
  {
    if id :| id in mounts && mounts[id].path == "/" {
      var i :| 0 <= i < |rs| && rs[i].value.0 == id;
      assert rs[i].value.1.path == "/";
    }
    if i :| 0 <= i < |rs| && rs[i].value.1.path == "/" {
      var id := rs[i].value.0;
      assert id in mounts && mounts[id].path == "/";
    }
  }

  ghost predicate IsReading(text: string, r: Result<map<int, MountPoint>, ParseError>) {
    var rs := ParseLines(SplitLines(text));
    && (r.Ok? <==> AllParse(rs) && DistinctIds(rs) && HasRoot(rs))
    && (r.Ok? ==> IsSnapshot(rs, r.value))
    && (AllParse(rs) && DistinctIds(rs) && r.Err? ==> r.error == MissingRoot)
  }

  type Snapshot = Result<map<int, MountPoint>, ParseError>

  /** Line by line: the first line that does not parse or repeats an id is the error. */
  function ReadLines(lines: seq<string>): Snapshot {
    if lines == [] then Ok(map[])
    else
      var before := ReadLines(lines[..|lines| - 1]);
      if before.Err? then before
      else
        match ParseLine(lines[|lines| - 1])
        case Err(error) => Err(error)
        case Ok((id, mount)) => if id in before.value then Err(InvalidIdentity) else Ok(before.value[id := mount])
  }

  predicate MountsRoot(mounts: map<int, MountPoint>) {
    exists id :: id in mounts && mounts[id].path == "/"
  }

  function ReadTable(text: string): Snapshot {
    var read := ReadLines(SplitLines(text));
    if read.Ok? && !MountsRoot(read.value) then Err(MissingRoot) else read
  }

  lemma {:induction false} ReadLinesStopsEarly(lines: seq<string>, n: nat)
    requires n <= |lines| && ReadLines(lines[..n]).Err?
    ensures ReadLines(lines) == ReadLines(lines[..n])
  {
    if n == |lines| {
      assert lines[..n] == lines;
    } else {
      assert lines[..|lines| - 1][..n] == lines[..n];
      ReadLinesStopsEarly(lines[..|lines| - 1], n);
    }
  }

  lemma {:induction false} PrefixFails(rs: seq<Record>)
    requires rs != [] && !(AllParse(rs[..|rs| - 1]) && DistinctIds(rs[..|rs| - 1]))
    ensures !(AllParse(rs) && DistinctIds(rs))
  {
    var front := rs[..|rs| - 1];
    if AllParse(rs) {
      assert forall i :: 0 <= i < |front| ==> front[i] == rs[i];
      var i, j :| 0 <= i < j < |front| && front[i].value.0 == front[j].value.0;
      assert rs[i].value.0 == rs[j].value.0;
    }
  }

  /** A snapshot is read iff every line parses and no id repeats, and then holds one mount per line. */
  lemma {:induction false} ReadLinesIsSnapshot(lines: seq<string>)
    ensures var rs, read := ParseLines(lines), ReadLines(lines);
            && (read.Ok? <==> AllParse(rs) && DistinctIds(rs))
            && (read.Ok? ==> IsSnapshot(rs, read.value))
  {
    if lines != [] {
      var n := |lines| - 1;
      var rs := ParseLines(lines);
      ReadLinesIsSnapshot(lines[..n]);
      assert rs == ParseLines(lines[..n]) + [ParseLine(lines[n])] && rs[..n] == ParseLines(lines[..n]);
      var before := ReadLines(lines[..n]);
      if before.Err? {
        PrefixFails(rs);
      } else if rs[n].Ok? {
        if rs[n].value.0 in before.value {
          RepeatedId(rs, n, before.value);
        } else {
          SnapshotGrows(rs[..n], rs[n], before.value);
        }
      }
    }
  }

  /** Any text at all: accepted iff every line parses, no id repeats and a root is mounted. */
  lemma {:induction false} ReadTableIsReading(text: string)
    ensures IsReading(text, ReadTable(text))
  {
    ReadLinesIsSnapshot(SplitLines(text));
    if ReadLines(SplitLines(text)).Ok? {
      RootIffSnapshotHasRoot(ParseLines(SplitLines(text)), ReadLines(SplitLines(text)).value);
    }
  }

  lemma {:induction false} OneMoreLine(lines: seq<string>, i: nat)
    requires i < |lines|
    ensures ReadLines(lines[..i]).Ok? ==>
              var before, line := ReadLines(lines[..i]).value, ParseLine(lines[i]);
              ReadLines(lines[..i + 1]) == if line.Err? then Err(line.error)
                                           else if line.value.0 in before then Err(InvalidIdentity)
                                           else Ok(before[line.value.0 := line.value.1])
    ensures ReadLines(lines[..i + 1]).Err? ==> ReadLines(lines) == ReadLines(lines[..i + 1])
  {
    assert lines[..i + 1][..i] == lines[..i];
    if ReadLines(lines[..i + 1]).Err? {
      ReadLinesStopsEarly(lines, i + 1);
    }
  }

  method ReadMounts(lines: seq<string>) returns (r: Snapshot)
    ensures r == ReadLines(lines)
  {
    var mounts: map<int, MountPoint> := map[];
    for i := 0 to |lines|
      invariant ReadLines(lines[..i]) == Ok(mounts)
    {
      OneMoreLine(lines, i);
      var parsed := ParseLine(lines[i]);
      if parsed.Err? {
        return Err(parsed.error);
      }
      if parsed.value.0 in mounts {
        return Err(InvalidIdentity);
      }
      mounts := mounts[parsed.value.0 := parsed.value.1];
    }
    assert lines[..|lines|] == lines;
    return Ok(mounts);
  }

  method MountPoints(text: string) returns (r: Snapshot)
    ensures r == ReadTable(text)
  {
    r := ReadMounts(SplitLines(text));
    if r.Ok? && !MountsRoot(r.value) {
      r := Err(MissingRoot);
    }
  }

  // ----- The writer: proc(5) ---------------------------------------------------------------------

  datatype Entry = Entry(
    id: nat,
    parent: nat,
    device: string,
    root: string,
    path: string,
    options: string,
    optionalFields: seq<string>,
    fstype: string,
    source: string,
    superOptions: string)

  /** Space, tab, newline and backslash as three-digit octal. */
  function EscapeChar(c: char): string {
    if c == ' ' then "\\040"
    else if c == '\t' then "\\011"
    else if c == '\n' then "\\012"
    else if c == '\\' then "\\134"
    else [c]
  }

  function Escape(s: string): string {
    if s == [] then [] else EscapeChar(s[0]) + Escape(s[1..])
  }

  function Join(words: seq<string>): string {
    if words == [] then []
    else if |words| == 1 then words[0]
    else words[0] + " " + Join(words[1..])
  }

  function Fields(e: Entry): seq<string> {
    [Print(e.id), Print(e.parent), e.device, Escape(e.root), Escape(e.path), e.options] + e.optionalFields
  }

  function PrintLine(e: Entry): string {
    Join(Fields(e)) + SEPARATOR + Join([e.fstype, e.source, e.superOptions])
  }

  function PrintTable(es: seq<Entry>): string {
    if es == [] then [] else PrintLine(es[0]) + "\n" + PrintTable(es[1..])
  }

  predicate IsEscapedSpace(c: char) {
    c == ' ' || c == '\t' || c == '\n'
  }

  predicate IsWord(s: string) {
    s != [] && forall i :: 0 <= i < |s| ==> !IsSpace(s[i])
  }

  /** No white space but what the kernel escapes, and no lone dash. */
  predicate IsPlain(s: string) {
    s != [] && s != "-" && forall i :: 0 <= i < |s| ==> !IsSpace(s[i]) || IsEscapedSpace(s[i])
  }

  predicate IsField(s: string) {
    IsWord(s) && s != "-"
  }

  predicate IsEntry(e: Entry) {
    && IsField(e.device) && IsField(e.options) && IsPlain(e.root) && IsPlain(e.path) && e.path[0] == '/'
    && (forall i :: 0 <= i < |e.optionalFields| ==> IsField(e.optionalFields[i]))
    && IsWord(e.fstype) && IsWord(e.source) && IsWord(e.superOptions)
  }

  // ----- Reading undoes writing ------------------------------------------------------------------

  lemma {:induction false} UnescapeEscapedChar(c: char, rest: string)
    ensures Unescape(EscapeChar(c) + rest) == [c] + Unescape(rest)
  {
    var e := EscapeChar(c);
    var s := e + rest;
    if |e| == 4 {
      assert s[4..] == rest && s[0] == e[0] && s[1] == e[1] && s[2] == e[2] && s[3] == e[3];
      assert OctalChar(e[1], e[2], e[3]) == c;
    } else {
      assert s[1..] == rest && s[0] == c;
    }
  }

  /** Unescaping an escaped path gives the path back, whatever the path. */
  lemma {:induction false} UnescapeEscape(s: string)
    ensures Unescape(Escape(s)) == s
  {
    if s != [] {
      UnescapeEscape(s[1..]);
      UnescapeEscapedChar(s[0], Escape(s[1..]));
    }
  }

  lemma {:induction false} EscapedIsWord(s: string)
    requires forall i :: 0 <= i < |s| ==> !IsSpace(s[i]) || IsEscapedSpace(s[i])
    ensures |Escape(s)| >= |s| && forall i :: 0 <= i < |Escape(s)| ==> !IsSpace(Escape(s)[i])
    ensures s != [] && s[0] == '/' ==> Escape(s)[0] == '/'
  {
    if s != [] {
      EscapedIsWord(s[1..]);
      var e := EscapeChar(s[0]);
      assert forall i :: 0 <= i < |e| ==> !IsSpace(e[i]);
      assert Escape(s) == e + Escape(s[1..]);
    }
  }

  lemma {:induction false} WordLengthOf(w: string, rest: string)
    requires forall i :: 0 <= i < |w| ==> !IsSpace(w[i])
    requires rest != [] ==> IsSpace(rest[0])
    ensures WordLength(w + rest) == |w|
  {
    if w == [] {
      assert w + rest == rest;
    } else {
      WordLengthOf(w[1..], rest);
      assert (w + rest)[1..] == w[1..] + rest;
    }
  }

  /** Splitting joined words gives the words back. */
  lemma {:induction false} WordsOfJoin(words: seq<string>)
    requires forall i :: 0 <= i < |words| ==> IsWord(words[i])
    ensures Words(Join(words)) == words
  {
    if |words| == 1 {
      WordLengthOf(words[0], []);
      assert words[0] + [] == words[0];
    } else if |words| > 1 {
      var rest := " " + Join(words[1..]);
      assert Join(words) == words[0] + rest;
      WordLengthOf(words[0], rest);
      assert (words[0] + rest)[|words[0]|..] == rest;
      assert rest[1..] == Join(words[1..]);
      WordsOfJoin(words[1..]);
    }
  }

  lemma {:induction false} SeparatorAfterWord(w: string, rest: string, before: string, after: string)
    requires forall i :: 0 <= i < |w| ==> !IsSpace(w[i])
    requires SplitOnce(rest) == Some((before, after))
    ensures SplitOnce(w + rest) == Some((w + before, after))
  {
    if w == [] {
      assert w + rest == rest && w + before == before;
    } else {
      SeparatorAfterWord(w[1..], rest, before, after);
      assert (w + rest)[1..] == w[1..] + rest;
      assert (w + rest)[..3][0] == w[0];
      assert [w[0]] + (w[1..] + before) == w + before;
    }
  }

  /** A space before a field does not start a separator, because no field is a lone dash. */
  lemma {:induction false} SpaceBeforeField(field: string, rest: string, before: string, after: string)
    requires IsField(field) && rest != [] && rest[0] == ' '
    requires SplitOnce(field + rest) == Some((before, after))
    ensures SplitOnce(" " + field + rest) == Some((" " + before, after))
  {
    var s := " " + field + rest;
    assert s[1..] == field + rest;
    assert s[..3][1] == field[0];
    if |field| == 1 {
      assert field == [field[0]];
    } else {
      assert s[..3][2] == field[1] && !IsSpace(field[1]);
    }
    assert s[..3] != SEPARATOR;
  }

  lemma JoinStartsWithItsFirst(fields: seq<string>, tail: string) returns (rest: string)
    requires fields != [] && tail != [] && tail[0] == ' '
    ensures Join(fields) + tail == fields[0] + rest && rest != [] && rest[0] == ' '
  {
    rest := if |fields| == 1 then tail else " " + Join(fields[1..]) + tail;
  }

  lemma {:induction false} FieldThenSeparator(field: string, after: string)
    requires IsField(field)
    ensures SplitOnce(field + (SEPARATOR + after)) == Some((field, after))
  {
    var tail := SEPARATOR + after;
    assert tail[..3] == SEPARATOR && tail[3..] == after;
    SeparatorAfterWord(field, tail, "", after);
    assert field + "" == field;
  }

  lemma {:induction false} FieldThenMore(
    first: string, second: string, rest: string, more: string, tail: string, after: string)
    requires IsField(first) && IsField(second) && rest != [] && rest[0] == ' '
    requires more + tail == second + rest && SplitOnce(more + tail) == Some((more, after))
    ensures SplitOnce(first + " " + more + tail) == Some((first + " " + more, after))
  {
    SpaceBeforeField(second, rest, more, after);
    var spaced := " " + second + rest;
    SeparatorAfterWord(first, spaced, " " + more, after);
    Respace(first, more, tail, second, rest);
  }

  lemma Respace(first: string, more: string, tail: string, second: string, rest: string)
    requires more + tail == second + rest
    ensures first + " " + more + tail == first + (" " + second + rest)
    ensures first + (" " + more) == first + " " + more
  {
    assert first + " " + more + tail == first + " " + (more + tail);
    assert first + " " + (second + rest) == first + (" " + second + rest);
  }

  lemma {:induction false} SplitOnceOfJoin(fields: seq<string>, tail: string, after: string)
    requires fields != [] && forall i :: 0 <= i < |fields| ==> IsField(fields[i])
    requires tail == SEPARATOR + after
    ensures SplitOnce(Join(fields) + tail) == Some((Join(fields), after))
  {
    if |fields| == 1 {
      FieldThenSeparator(fields[0], after);
    } else {
      SplitOnceOfJoin(fields[1..], tail, after);
      var rest := JoinStartsWithItsFirst(fields[1..], tail);
      FieldThenMore(fields[0], fields[1], rest, Join(fields[1..]), tail, after);
    }
  }

  lemma {:induction false} DigitsOnlyOfDigits(s: string)
    requires AllDigits(s)
    ensures DigitsOnly(s) == s
  {
    if s != [] {
      DigitsOnlyOfDigits(s[..|s| - 1]);
      assert s == s[..|s| - 1] + [s[|s| - 1]];
    }
  }

  lemma DigitsAreAField(s: string)
    requires s != [] && AllDigits(s)
    ensures IsField(s)
  {
    forall i | 0 <= i < |s| ensures !IsSpace(s[i]) {
      assert IsDigit(s[i]);
    }
    assert IsDigit(s[0]);
  }

  lemma {:induction false} ParseIntOfPrint(n: nat)
    ensures ParseInt(Print(n)) == Some(n)
  {
    var s := Print(n);
    assert IsDigit(s[0]);
    assert IsPythonDigits(s) by {
      assert forall i :: 0 <= i < |s| ==> IsDigit(s[i]) && s[i] != '_';
    }
    DigitsOnlyOfDigits(s);
    ValueOfPrint(n);
  }

  lemma {:induction false} EscapedIsField(s: string)
    requires IsPlain(s)
    ensures IsField(Escape(s))
  {
    EscapedIsWord(s);
    UnescapeEscape(s);
    assert "-"[1..] == "";
  }

  lemma FieldsAreFields(e: Entry)
    requires IsEntry(e)
    ensures forall i :: 0 <= i < |Fields(e)| ==> IsField(Fields(e)[i])
  {
    DigitsAreAField(Print(e.id));
    DigitsAreAField(Print(e.parent));
    EscapedIsField(e.root);
    EscapedIsField(e.path);
    var fixed := [Print(e.id), Print(e.parent), e.device, Escape(e.root), Escape(e.path), e.options];
    forall i | 0 <= i < |Fields(e)| ensures IsField(Fields(e)[i]) {
      if i < 6 {
        assert Fields(e)[i] == fixed[i];
      } else {
        assert Fields(e)[i] == e.optionalFields[i - 6];
      }
    }
  }

  /** One printed line reads back as its id, unescaped path, type and (still escaped) root, unless the id is zero. */
  lemma ParsePrintLine(e: Entry)
    requires IsEntry(e)
    ensures ParseLine(PrintLine(e)) ==
            if e.id == 0 then Err(InvalidIdentity)
            else Ok((e.id, MountPoint(e.path, e.fstype, Escape(e.root))))
  {
    FieldsAreFields(e);
    var filesystem := [e.fstype, e.source, e.superOptions];
    SplitOnceOfJoin(Fields(e), SEPARATOR + Join(filesystem), Join(filesystem));
    assert PrintLine(e) == Join(Fields(e)) + (SEPARATOR + Join(filesystem));
    WordsOfJoin(Fields(e));
    WordsOfJoin(filesystem);
    UnescapeEscape(e.path);
    EscapedIsField(e.path);
    ParseIntOfPrint(e.id);
  }

  lemma {:induction false} NoBreakInJoin(words: seq<string>)
    requires forall i :: 0 <= i < |words| ==> IsWord(words[i])
    ensures forall k :: 0 <= k < |Join(words)| ==> !IsLineBreak(Join(words)[k])
  {
    if |words| == 1 {
      assert IsWord(words[0]);
    } else if |words| > 1 {
      NoBreakInJoin(words[1..]);
      assert IsWord(words[0]);
      assert Join(words) == words[0] + " " + Join(words[1..]);
    }
  }

  lemma {:induction false} LineLengthOf(line: string, rest: string)
    requires forall i :: 0 <= i < |line| ==> !IsLineBreak(line[i])
    ensures LineLength(line + "\n" + rest) == |line|
  {
    if line == [] {
      assert (line + "\n" + rest)[0] == '\n';
    } else {
      LineLengthOf(line[1..], rest);
      assert (line + "\n" + rest)[1..] == line[1..] + "\n" + rest;
    }
  }

  function Lines(es: seq<Entry>): (lines: seq<string>)
    ensures |lines| == |es| && forall i :: 0 <= i < |es| ==> lines[i] == PrintLine(es[i])
  {
    if es == [] then [] else [PrintLine(es[0])] + Lines(es[1..])
  }

  lemma NoBreakInLine(e: Entry)
    requires IsEntry(e)
    ensures forall k :: 0 <= k < |PrintLine(e)| ==> !IsLineBreak(PrintLine(e)[k])
  {
    FieldsAreFields(e);
    NoBreakInJoin(Fields(e));
    NoBreakInJoin([e.fstype, e.source, e.superOptions]);
  }

  lemma {:induction false} SplitAfterLine(line: string, rest: string)
    requires forall i :: 0 <= i < |line| ==> !IsLineBreak(line[i])
    ensures SplitLines(line + "\n" + rest) == [line] + SplitLines(rest)
  {
    LineLengthOf(line, rest);
    var text := line + "\n" + rest;
    assert text[|line|] == '\n' && text[..|line|] == line && text[|line| + 1..] == rest;
  }

  lemma {:induction false} SplitPrintedTable(es: seq<Entry>)
    requires forall i :: 0 <= i < |es| ==> IsEntry(es[i])
    ensures SplitLines(PrintTable(es)) == Lines(es)
  {
    if es != [] {
      SplitPrintedTable(es[1..]);
      NoBreakInLine(es[0]);
      SplitAfterLine(PrintLine(es[0]), PrintTable(es[1..]));
    }
  }

  /** What a printed table should read back as, record by record. */
  function Records(es: seq<Entry>): (rs: seq<Record>)
    ensures |rs| == |es| && forall i :: 0 <= i < |es| ==> rs[i] == RecordOf(es[i])
  {
    if es == [] then [] else [RecordOf(es[0])] + Records(es[1..])
  }

  function RecordOf(e: Entry): Record {
    if e.id == 0 then Err(InvalidIdentity) else Ok((e.id, MountPoint(e.path, e.fstype, Escape(e.root))))
  }

  lemma {:induction false} ReadBack(es: seq<Entry>)
    requires forall i :: 0 <= i < |es| ==> IsEntry(es[i])
    ensures ParseLines(SplitLines(PrintTable(es))) == Records(es)
  {
    SplitPrintedTable(es);
    forall i | 0 <= i < |es| ensures ParseLine(PrintLine(es[i])) == RecordOf(es[i]) {
      ParsePrintLine(es[i]);
    }
  }

  /** What the snapshot of a table is: one mount per entry, keyed by id. */
  ghost predicate IsSnapshotOf(es: seq<Entry>, mounts: map<int, MountPoint>) {
    && (forall i :: 0 <= i < |es| ==>
          es[i].id in mounts && mounts[es[i].id] == MountPoint(es[i].path, es[i].fstype, Escape(es[i].root)))
    && (forall id :: id in mounts ==> exists i :: 0 <= i < |es| && es[i].id == id)
  }

  predicate IsMountable(es: seq<Entry>) {
    && (forall i :: 0 <= i < |es| ==> es[i].id > 0)
    && (forall i, j :: 0 <= i < j < |es| ==> es[i].id != es[j].id)
    && (exists i :: 0 <= i < |es| && es[i].path == "/")
  }

  lemma {:induction false} DistinctIdsIff(es: seq<Entry>)
    requires AllParse(Records(es))
    ensures DistinctIds(Records(es)) <==> forall i, j :: 0 <= i < j < |es| ==> es[i].id != es[j].id
  {
    var rs := Records(es);
    assert forall i :: 0 <= i < |es| ==> rs[i].Ok? && rs[i].value.0 == es[i].id;
  }

  lemma {:induction false} HasRootIff(es: seq<Entry>)
    requires AllParse(Records(es))
    ensures HasRoot(Records(es)) <==> exists i :: 0 <= i < |es| && es[i].path == "/"
  {
    var rs := Records(es);
    if i :| 0 <= i < |es| && es[i].path == "/" {
      assert rs[i].value.1.path == "/";
    }
  }

  lemma {:induction false} MountableIff(es: seq<Entry>)
    ensures var rs := Records(es);
            IsMountable(es) <==> AllParse(rs) && DistinctIds(rs) && HasRoot(rs)
  {
    assert forall i :: 0 <= i < |es| ==> (Records(es)[i].Ok? <==> es[i].id > 0);
    if AllParse(Records(es)) {
      DistinctIdsIff(es);
      HasRootIff(es);
    }
  }

  /** A root other than `/` never looks like `/` for being left escaped. */
  lemma {:induction false} EscapedRootIsRoot(root: string)
    ensures Escape(root) == "/" <==> root == "/"
  {
    UnescapeEscape(root);
    assert "/"[1..] == "";
  }

  lemma {:induction false} SnapshotOfRecords(es: seq<Entry>, mounts: map<int, MountPoint>)
    requires AllParse(Records(es)) && IsSnapshot(Records(es), mounts)
    ensures IsSnapshotOf(es, mounts)
  {
    var rs := Records(es);
    forall i | 0 <= i < |es| ensures rs[i].value == (es[i].id as int, MountPoint(es[i].path, es[i].fstype, Escape(es[i].root))) {
      assert rs[i] == RecordOf(es[i]);
    }
  }

  /**
   Reading a printed mount table: accepted iff its ids are positive and distinct and a root is
   mounted, and then the snapshot is the table, each root still in its escaped form.
   */
  method ReadPrinted(es: seq<Entry>) returns (r: Result<map<int, MountPoint>, ParseError>)
    requires forall i :: 0 <= i < |es| ==> IsEntry(es[i])
    ensures r.Ok? <==> IsMountable(es)
    ensures r.Ok? ==> IsSnapshotOf(es, r.value)
  {
    r := MountPoints(PrintTable(es));
    ReadTableIsReading(PrintTable(es));
    ReadBack(es);
    MountableIff(es);
    if r.Ok? {
      SnapshotOfRecords(es, r.value);
    }
  }

  // ----- Lines, written out ------------------------------------------------------------------------------

  predicate HasSeparatorAt(s: string, i: nat) {
    i + 3 <= |s| && s[i] == ' ' && s[i + 1] == '-' && s[i + 2] == ' '
  }

  /** A line is cut around its first " - ", and nowhere if it has none. */
  lemma {:induction false} SplitOnceIs(s: string, before: string, after: string)
    ensures SplitOnce(s).None? <==> forall i: nat :: !HasSeparatorAt(s, i)
    ensures SplitOnce(s) == Some((before, after)) <==>
            s == before + " - " + after && forall i: nat :: i < |before| ==> !HasSeparatorAt(s, i)
    decreases |s|
  {
    if |s| >= 3 {
      var rest := s[1..];
      assert HasSeparatorAt(s, 0) <==> s[..3] == SEPARATOR by {
        assert s[..3] == [s[0], s[1], s[2]];
      }
      forall i: nat ensures HasSeparatorAt(rest, i) <==> HasSeparatorAt(s, i + 1) {}
      if s[..3] == SEPARATOR {
        assert s == "" + " - " + s[3..];
        if s == before + " - " + after && forall i: nat :: i < |before| ==> !HasSeparatorAt(s, i) {
          assert before == "";
          assert s[3..] == after;
        }
      } else {
        SplitOnceIs(rest, if before == "" then "" else before[1..], after);
        CutFurtherOn(s, before, after);
      }
    } else {
      assert forall i: nat :: !HasSeparatorAt(s, i);
      assert |before + " - " + after| >= 3;
    }
  }

  lemma {:induction false} CutFurtherOn(s: string, before: string, after: string)
    requires |s| >= 3 && !HasSeparatorAt(s, 0) && s[..3] != SEPARATOR
    requires var b := if before == "" then "" else before[1..];
             SplitOnce(s[1..]) == Some((b, after)) <==>
             s[1..] == b + " - " + after && forall i: nat :: i < |b| ==> !HasSeparatorAt(s[1..], i)
    requires SplitOnce(s[1..]).None? <==> forall i: nat :: !HasSeparatorAt(s[1..], i)
    ensures SplitOnce(s).None? <==> forall i: nat :: !HasSeparatorAt(s, i)
    ensures SplitOnce(s) == Some((before, after)) <==>
            s == before + " - " + after && forall i: nat :: i < |before| ==> !HasSeparatorAt(s, i)
  {
    forall i: nat ensures HasSeparatorAt(s[1..], i) <==> HasSeparatorAt(s, i + 1) {}
    if SplitOnce(s).None? {
      forall i: nat ensures !HasSeparatorAt(s, i) {
        assert i > 0 ==> !HasSeparatorAt(s[1..], i - 1);
      }
    }
    if before == "" {
      assert before + " - " + after == " - " + after;
      assert (" - " + after)[..3] == SEPARATOR;
    } else {
      var b := before[1..];
      assert before == [before[0]] + b;
      assert before + " - " + after == [before[0]] + (b + " - " + after);
      assert s == [s[0]] + s[1..];
      if s == before + " - " + after && forall i: nat :: i < |before| ==> !HasSeparatorAt(s, i) {
        assert s[0] == before[0] && s[1..] == b + " - " + after;
        forall i: nat | i < |b| ensures !HasSeparatorAt(s[1..], i) {
          assert !HasSeparatorAt(s, i + 1);
        }
      }
      if SplitOnce(s) == Some((before, after)) {
        forall i: nat | i < |before| ensures !HasSeparatorAt(s, i) {
          assert i > 0 ==> !HasSeparatorAt(s[1..], i - 1);
        }
      }
    }
  }

  /** The white-space separated words of any text: none empty, none with white space in it. */
  lemma {:induction false} WordsAreWords(s: string)
    ensures forall i :: 0 <= i < |Words(s)| ==> IsWord(Words(s)[i])
    decreases |s|
  {
    if s != [] {
      if IsSpace(s[0]) {
        WordsAreWords(s[1..]);
      } else {
        WordLengthIs(s);
        WordsAreWords(s[WordLength(s)..]);
      }
    }
  }

  lemma {:induction false} WordLengthIs(s: string)
    ensures WordLength(s) <= |s| && forall i :: 0 <= i < WordLength(s) ==> !IsSpace(s[i])
    ensures WordLength(s) < |s| ==> IsSpace(s[WordLength(s)])
  {
    if s != [] && !IsSpace(s[0]) {
      WordLengthIs(s[1..]);
    }
  }

  /**
   Any line at all: it parses iff it has a separator, six words before and three after it, an absolute
   mount point, and a positive id; and the first of these that fails is the error.
   */
  lemma {:induction false} ParseLineIff(line: string)
    ensures ParseLine(line) == Err(NoSeparator) <==> forall i: nat :: !HasSeparatorAt(line, i)
    ensures forall before, after | SplitOnce(line) == Some((before, after)) ::
              var fields, filesystem := Words(before), Words(after);
              if |fields| < 6 || |filesystem| < 3 then ParseLine(line) == Err(InvalidMountinfo)
              else if !("/" <= Unescape(fields[4])) then ParseLine(line) == Err(InvalidMountPoint)
              else if !(ParseInt(fields[0]).Some? && ParseInt(fields[0]).value >= 1) then ParseLine(line) == Err(InvalidIdentity)
              else ParseLine(line) == Ok((ParseInt(fields[0]).value, MountPoint(Unescape(fields[4]), filesystem[0], fields[3])))
  {
    SplitOnceIs(line, "", "");
  }

  // ----- Characters and numbers, written out ---------------------------------------------------------------

  /** The code points that Python's `str.isspace` and `str.splitlines` know. */
  lemma {:induction false} SpacesAre(c: char)
    ensures var p := c as int;
            IsSpace(c) <==>
            || p == 9 || p == 10 || p == 11 || p == 12 || p == 13 || p == 28 || p == 29 || p == 30 || p == 31 || p == 32
            || p == 0x85 || p == 0xA0 || p == 0x1680
            || p == 0x2000 || p == 0x2001 || p == 0x2002 || p == 0x2003 || p == 0x2004 || p == 0x2005 || p == 0x2006
            || p == 0x2007 || p == 0x2008 || p == 0x2009 || p == 0x200A
            || p == 0x2028 || p == 0x2029 || p == 0x202F || p == 0x205F || p == 0x3000
    ensures var p := c as int;
            IsLineBreak(c) <==>
            || p == 10 || p == 11 || p == 12 || p == 13 || p == 28 || p == 29 || p == 30
            || p == 0x85 || p == 0x2028 || p == 0x2029
  {
  }

  predicate HasNoBreak(line: string) {
    forall i :: 0 <= i < |line| ==> !IsLineBreak(line[i])
  }

  lemma {:induction false} LineLengthIs(line: string, rest: string)
    requires HasNoBreak(line) && (rest != [] ==> IsLineBreak(rest[0]))
    ensures LineLength(line + rest) == |line|
  {
    if line == [] {
      assert line + rest == rest;
    } else {
      LineLengthIs(line[1..], rest);
      assert (line + rest)[1..] == line[1..] + rest;
    }
  }

  /** A text is cut at every line break, a carriage return and a line feed together being one; nothing follows the last. */
  lemma {:induction false} SplitLinesIs(line: string, c: char, rest: string)
    requires HasNoBreak(line) && IsLineBreak(c) && !(c == '\r' && rest != [] && rest[0] == '\n')
    ensures SplitLines(line + ([c] + rest)) == [line] + SplitLines(rest)
  {
    var text := line + ([c] + rest);
    LineLengthIs(line, [c] + rest);
    assert text[..|line|] == line && text[|line|] == c && text[|line| + 1..] == rest;
    assert rest != [] ==> text[|line| + 1] == rest[0];
  }

  lemma {:induction false} SplitLinesAtBoth(line: string, rest: string)
    requires HasNoBreak(line)
    ensures SplitLines(line + ("\r\n" + rest)) == [line] + SplitLines(rest)
  {
    var text := line + ("\r\n" + rest);
    LineLengthIs(line, "\r\n" + rest);
    assert text[..|line|] == line && text[|line|] == '\r' && text[|line| + 1] == '\n' && text[|line| + 2..] == rest;
  }

  lemma {:induction false} SplitLinesAtEnd(line: string)
    requires HasNoBreak(line)
    ensures SplitLines(line) == if line == "" then [] else [line]
  {
    LineLengthIs(line, "");
    assert line + "" == line;
  }

  /** A backslash and three octal digits stand for one character, anything else for itself. */
  lemma {:induction false} UnescapeIs(s: string)
    requires s != []
    ensures Unescape(s) ==
            if |s| >= 4 && s[0] == '\\' && '0' <= s[1] <= '7' && '0' <= s[2] <= '7' && '0' <= s[3] <= '7'
            then [(64 * (s[1] as int - 48) + 8 * (s[2] as int - 48) + (s[3] as int - 48)) as char] + Unescape(s[4..])
            else [s[0]] + Unescape(s[1..])
  {
  }

  /** Digits, with single underscores strictly inside. */
  lemma {:induction false} NoTwoUnderscores(s: string, k: nat)
    requires IsPythonDigits(s) && k < |s| - 1
    ensures s[k] == '_' ==> s[k + 1] != '_'
  {
  }

  predicate IsDigitOrInner(s: string, i: nat)
    requires i < |s|
  {
    || '0' <= s[i] <= '9'
    || (s[i] == '_' && 0 < i < |s| - 1 && '0' <= s[i - 1] <= '9' && '0' <= s[i + 1] <= '9')
  }

  lemma {:induction false} PythonDigitsIff(s: string)
    ensures IsPythonDigits(s) <==> s != [] && forall i :: 0 <= i < |s| ==> IsDigitOrInner(s, i)
  {
    if IsPythonDigits(s) {
      forall i | 0 <= i < |s| ensures IsDigitOrInner(s, i) {
        if s[i] == '_' && i > 0 {
          NoTwoUnderscores(s, i - 1);
        }
      }
    }
    if s != [] && forall i :: 0 <= i < |s| ==> IsDigitOrInner(s, i) {
      assert IsDigitOrInner(s, 0) && IsDigitOrInner(s, |s| - 1);
      forall i | 0 <= i < |s| ensures IsDigit(s[i]) || s[i] == '_' {
        assert IsDigitOrInner(s, i);
      }
      forall i | 0 <= i < |s| - 1 ensures s[i] != '_' || s[i + 1] != '_' {
        assert IsDigitOrInner(s, i);
      }
    }
  }

  /** Digits alone are their value. */
  lemma {:induction false} ParseIntOfDigits(s: string)
    requires IsPythonDigits(s)
    ensures ParseInt(s) == Some(Value(DigitsOnly(s)))
  {
  }

  /** After a plus sign too. */
  lemma {:induction false} ParseIntOfPositive(s: string)
    requires IsPythonDigits(s)
    ensures ParseInt("+" + s) == Some(Value(DigitsOnly(s)))
  {
    var signed := "+" + s;
    assert signed[0] == '+' && signed[1..] == s;
  }

  /** After a minus sign they are negated. */
  lemma {:induction false} ParseIntOfNegative(s: string)
    requires IsPythonDigits(s)
    ensures ParseInt("-" + s).Some? && ParseInt("-" + s).value + Value(DigitsOnly(s)) == 0
  {
    var signed := "-" + s;
    assert signed[0] == '-' && signed[1..] == s;
  }

  /** No other text is a number. */
  lemma {:induction false} ParseIntOfOther(s: string)
    requires !IsPythonDigits(s) && (s != [] && (s[0] == '+' || s[0] == '-') ==> !IsPythonDigits(s[1..]))
    ensures ParseInt(s) == None
  {
  }
}
