// internal/web/files.go: the title that is put in front of an OpenVPN profile.
module Titler {
  import opened Text
  import opened Wrappers

  const FRIENDLY := "OVPN_ACCESS_SERVER_FRIENDLY_NAME="
  const SETENV := "setenv FRIENDLY_NAME"

  predicate Contains(s: string, sub: string) {
    exists i :: 0 <= i <= |s| && sub <= s[i..]
  }

  predicate IsSpace(c: char) {
    || '\U{0009}' <= c <= '\U{000d}' || c == ' ' || c == '\U{0085}' || c == '\U{00a0}' || c == '\U{1680}'
    || '\U{2000}' <= c <= '\U{200a}' || c == '\U{2028}' || c == '\U{2029}' || c == '\U{202f}' || c == '\U{205f}' || c == '\U{3000}'
  }

  function TrimLeft(s: string): string {
    if s == "" || !IsSpace(s[0]) then s else TrimLeft(s[1..])
  }

  function TrimRight(s: string): string {
    if s == "" || !IsSpace(s[|s| - 1]) then s else TrimRight(s[..|s| - 1])
  }

  function TrimSpace(s: string): string {
    TrimRight(TrimLeft(s))
  }

  /** The field that starts at the front of s. */
  function Word(s: string): string {
    if s == "" || IsSpace(s[0]) then "" else [s[0]] + Word(s[1..])
  }

  lemma {:induction false} WordPrefix(s: string)
    ensures Word(s) <= s
  {
    if s != "" && !IsSpace(s[0]) { WordPrefix(s[1..]); }
  }

  /** strings.Fields. */
  function Fields(s: string): seq<string>
    decreases |s|
  {
    var t := TrimLeft(s);
    TrimLeftShorter(s);
    WordPrefix(t);
    if t == "" then [] else [Word(t)] + Fields(t[|Word(t)|..])
  }

  lemma {:induction false} TrimLeftShorter(s: string)
    ensures |TrimLeft(s)| <= |s|
    ensures TrimLeft(s) != "" ==> !IsSpace(TrimLeft(s)[0]) && |Word(TrimLeft(s))| > 0
  {
    if s != "" && IsSpace(s[0]) { TrimLeftShorter(s[1..]); }
  }

  // ---- labels -------------------------------------------------------------------------------

  predicate LabelChar(c: char) {
    'a' <= c <= 'z' || 'A' <= c <= 'Z' || '0' <= c <= '9' || c == ' ' || c == '.' || c == '_' || c == '-'
  }

  function CleanLabel(s: string): (r: string)
    ensures |r| == |s|
    ensures forall i :: 0 <= i < |s| ==> r[i] == s[i] || (r[i] == '_' && !LabelChar(s[i]))
    ensures forall i :: 0 <= i < |s| ==> LabelChar(r[i])
  {
    seq(|s|, i requires 0 <= i < |s| => if LabelChar(s[i]) then s[i] else '_')
  }

  /** rel without path.Ext(rel): cut at the last dot of the last path element. */
  function WithoutExt(rel: string): string {
    match DotFrom(rel, |rel|)
    case None => rel
    case Some(i) => rel[..i]
  }

  function DotFrom(rel: string, n: nat): Option<nat>
    requires n <= |rel|
    ensures DotFrom(rel, n).Some? ==> DotFrom(rel, n).value < n && rel[DotFrom(rel, n).value] == '.'
  {
    if n == 0 || rel[n - 1] == '/' then None
    else if rel[n - 1] == '.' then Some(n - 1)
    else DotFrom(rel, n - 1)
  }

  function FileLabel(rel: string): string {
    var name := CleanLabel(WithoutExt(rel));
    if name == "" then "profile" else name
  }

  /** strings.EqualFold(s, "remote"): no character outside ASCII folds to one of these letters. */
  predicate IsRemote(s: string) {
    && |s| == 6 && s[0] in {'r', 'R'} && s[1] in {'e', 'E'} && s[2] in {'m', 'M'}
    && s[3] in {'o', 'O'} && s[4] in {'t', 'T'} && s[5] in {'e', 'E'}
  }

  /** The host a line names, if it is a remote directive. */
  function HostOfLine(raw: string): Option<string> {
    var line := TrimSpace(raw);
    if line == "" || line[0] == '#' || line[0] == ';' then None
    else
      var fields := Fields(line);
      if |fields| >= 2 && IsRemote(fields[0]) then Some(CleanLabel(fields[1])) else None
  }

  function FirstHost(lines: seq<string>): string {
    if lines == [] then ""
    else match HostOfLine(lines[0]) case Some(host) => host case None => FirstHost(lines[1..])
  }

  function RemoteHost(body: string): string {
    FirstHost(Split(body, '\n'))
  }

  function DisplayName(rel: string, body: string): string {
    var name, host := FileLabel(rel), RemoteHost(body);
    if host == "" || host == name then name else host + " [" + name + "]"
  }

  /** The white space of Unicode. */
  const SPACES := "\t\n\U{000b}\U{000c}\r \U{0085}\U{00a0}\U{1680}\U{2000}\U{2001}\U{2002}\U{2003}\U{2004}\U{2005}\U{2006}\U{2007}\U{2008}\U{2009}\U{200a}\U{2028}\U{2029}\U{202f}\U{205f}\U{3000}"

  lemma IsSpaceIff(c: char)
    ensures IsSpace(c) <==> c in SPACES
  {
    if '\U{0009}' <= c <= '\U{000d}' { assert SPACES[(c - '\U{0009}') as int] == c; }
    if '\U{2000}' <= c <= '\U{200a}' { assert SPACES[9 + (c - '\U{2000}') as int] == c; }
    assert SPACES[5] == ' ' && SPACES[6] == '\U{0085}' && SPACES[7] == '\U{00a0}' && SPACES[8] == '\U{1680}';
    assert SPACES[20] == '\U{2028}' && SPACES[21] == '\U{2029}' && SPACES[22] == '\U{202f}' && SPACES[23] == '\U{205f}' && SPACES[24] == '\U{3000}';
  }

  const OTHER := "0123456789 ._-"

  lemma OtherIff(c: char)
    ensures '0' <= c <= '9' || c == ' ' || c == '.' || c == '_' || c == '-' <==> c in OTHER
  {
    if '0' <= c <= '9' { assert OTHER[(c - '0') as int] == c; }
    assert OTHER[10] == ' ' && OTHER[11] == '.' && OTHER[12] == '_' && OTHER[13] == '-';
  }

  /** A label keeps exactly these characters. */
  lemma LabelCharIff(c: char)
    ensures LabelChar(c) <==> c in LOWER || c in UPPER || c in OTHER
  {
    LowerIff(c);
    UpperIff(c);
    OtherIff(c);
  }

  // ---- what a line, a path and a profile are called ----------------------------------------------

  predicate Spaces(s: string) {
    forall i :: 0 <= i < |s| ==> IsSpace(s[i])
  }

  predicate NoSpace(s: string) {
    forall i :: 0 <= i < |s| ==> !IsSpace(s[i])
  }

  /** The end of a text, or of a word in it. */
  predicate Ends(s: string) {
    s == "" || IsSpace(s[0])
  }

  lemma {:induction false} TrimLeftOf(lead: string, rest: string)
    requires Spaces(lead) && (rest == "" || !IsSpace(rest[0]))
    ensures TrimLeft(lead + rest) == rest
  {
    if lead == "" {
      assert lead + rest == rest;
    } else {
      assert (lead + rest)[1..] == lead[1..] + rest;
      TrimLeftOf(lead[1..], rest);
    }
  }

  lemma {:induction false} TrimLeftCuts(s: string) returns (lead: string)
    ensures s == lead + TrimLeft(s) && Spaces(lead) && (TrimLeft(s) == "" || !IsSpace(TrimLeft(s)[0]))
  {
    lead := "";
    if s != "" && IsSpace(s[0]) {
      var rest := TrimLeftCuts(s[1..]);
      lead := [s[0]] + rest;
      assert s == [s[0]] + s[1..];
    }
  }

  lemma {:induction false} TrimRightCuts(s: string) returns (trail: string)
    ensures s == TrimRight(s) + trail && Spaces(trail)
  {
    trail := "";
    if s != "" && IsSpace(s[|s| - 1]) {
      trail := TrimRightCuts(s[..|s| - 1]);
      trail := trail + [s[|s| - 1]];
    }
  }

  /** Trimming does not cut into what ends with no space. */
  lemma {:induction false} TrimRightKeeps(a: string, tail: string) returns (short: string)
    requires a != "" && !IsSpace(a[|a| - 1])
    ensures TrimRight(a + tail) == a + short && short <= tail
  {
    short := tail;
    if tail != "" && IsSpace(tail[|tail| - 1]) {
      assert (a + tail)[..|a + tail| - 1] == a + tail[..|tail| - 1];
      short := TrimRightKeeps(a, tail[..|tail| - 1]);
    }
  }

  lemma {:induction false} WordOf(word: string, rest: string)
    requires NoSpace(word) && Ends(rest)
    ensures Word(word + rest) == word
  {
    if word == "" {
      assert word + rest == rest;
    } else {
      assert (word + rest)[1..] == word[1..] + rest;
      WordOf(word[1..], rest);
    }
  }

  lemma {:induction false} WordStops(s: string)
    ensures Word(s) <= s && NoSpace(Word(s)) && Ends(s[|Word(s)|..])
  {
    if s != "" && !IsSpace(s[0]) {
      WordStops(s[1..]);
      assert s[|Word(s)|..] == s[1..][|Word(s[1..])|..];
    }
  }

  /** The line reads: spaces, the word remote in any case, spaces, arg, and then nothing or a space. */
  predicate RemoteLine(raw: string, lead: string, word: string, gap: string, arg: string, tail: string) {
    && raw == lead + (word + (gap + (arg + tail)))
    && Spaces(lead) && IsRemote(word) && gap != "" && Spaces(gap) && arg != "" && NoSpace(arg) && Ends(tail)
  }

  lemma RemoteIsAWord(word: string)
    requires IsRemote(word)
    ensures word != "" && NoSpace(word) && word[0] in {'r', 'R'}
  {
  }

  lemma FieldsOfTwo(word: string, gap: string, arg: string, tail: string)
    requires word != "" && NoSpace(word) && gap != "" && Spaces(gap) && arg != "" && NoSpace(arg) && Ends(tail)
    ensures var f := Fields(word + (gap + (arg + tail))); |f| >= 2 && f[0] == word && f[1] == arg
  {
    var rest := gap + (arg + tail);
    var line := word + rest;
    assert TrimLeft(line) == line;
    WordOf(word, rest);
    assert line[|word|..] == rest;
    TrimLeftOf(gap, arg + tail);
    WordOf(arg, tail);
    assert Fields(line) == [word] + Fields(rest) && Fields(rest)[0] == arg;
  }

  lemma HostOfRemoteLine(raw: string, lead: string, word: string, gap: string, arg: string, tail: string)
    requires RemoteLine(raw, lead, word, gap, arg, tail)
    ensures HostOfLine(raw) == Some(CleanLabel(arg))
  {
    RemoteIsAWord(word);
    TrimLeftOf(lead, word + (gap + (arg + tail)));
    var core := word + (gap + arg);
    assert word + (gap + (arg + tail)) == core + tail && core[|core| - 1] == arg[|arg| - 1];
    var short := TrimRightKeeps(core, tail);
    assert core + short == word + (gap + (arg + short));
    FieldsOfTwo(word, gap, arg, short);
  }

  lemma CutWord(line: string) returns (word: string, rest: string)
    requires line != "" && !IsSpace(line[0])
    ensures line == word + rest && word != "" && NoSpace(word) && Ends(rest) && Fields(line) == [word] + Fields(rest)
  {
    assert TrimLeft(line) == line;
    WordStops(line);
    word := Word(line);
    rest := line[|word|..];
  }

  lemma FieldsSkip(rest: string)
    ensures Fields(rest) == Fields(TrimLeft(rest))
  {
    var lead := TrimLeftCuts(rest);
    var t := TrimLeft(rest);
    assert TrimLeft(t) == t;
  }

  lemma CutTwo(line: string) returns (word: string, gap: string, arg: string, end: string)
    requires line != "" && !IsSpace(line[0]) && |Fields(line)| >= 2
    ensures line == word + (gap + (arg + end)) && word == Fields(line)[0] && arg == Fields(line)[1]
    ensures gap != "" && Spaces(gap) && arg != "" && NoSpace(arg) && Ends(end)
  {
    var rest;
    word, rest := CutWord(line);
    gap := TrimLeftCuts(rest);
    FieldsSkip(rest);
    arg, end := CutWord(TrimLeft(rest));
    assert gap + TrimLeft(rest) == rest;
  }

  lemma Regroup(lead: string, word: string, gap: string, arg: string, end: string, trail: string)
    ensures lead + (word + (gap + (arg + end)) + trail) == lead + (word + (gap + (arg + (end + trail))))
  {
    assert word + (gap + (arg + end)) + trail == word + (gap + (arg + (end + trail)));
  }

  lemma RemoteLineOfHost(raw: string) returns (lead: string, word: string, gap: string, arg: string, tail: string)
    requires HostOfLine(raw).Some?
    ensures RemoteLine(raw, lead, word, gap, arg, tail) && HostOfLine(raw) == Some(CleanLabel(arg))
  {
    var line, trail := TrimSpace(raw), "";
    lead, trail := Surroundings(raw);
    var end;
    word, gap, arg, end := CutTwo(line);
    tail := end + trail;
    Regroup(lead, word, gap, arg, end, trail);
  }

  lemma Surroundings(raw: string) returns (lead: string, trail: string)
    requires TrimSpace(raw) != ""
    ensures raw == lead + (TrimSpace(raw) + trail) && Spaces(lead) && Spaces(trail) && !IsSpace(TrimSpace(raw)[0])
  {
    lead := TrimLeftCuts(raw);
    trail := TrimRightCuts(TrimLeft(raw));
    TrimRightKeepsHead(TrimLeft(raw));
  }

  /** A line names a host exactly if it is a remote directive, and then the cleaned second word. */
  lemma HostOfLineIff(raw: string, host: string)
    ensures HostOfLine(raw) == Some(host) <==>
            exists lead, word, gap, arg, tail :: RemoteLine(raw, lead, word, gap, arg, tail) && host == CleanLabel(arg)
  {
    if HostOfLine(raw) == Some(host) {
      var lead, word, gap, arg, tail := RemoteLineOfHost(raw);
    }
    if lead, word, gap, arg, tail :| RemoteLine(raw, lead, word, gap, arg, tail) && host == CleanLabel(arg) {
      HostOfRemoteLine(raw, lead, word, gap, arg, tail);
    }
  }

  /** The host of a profile is that of its first remote line; a profile without one has none. */
  lemma {:induction false} FirstHostIs(lines: seq<string>)
    ensures (forall i :: 0 <= i < |lines| ==> HostOfLine(lines[i]) == None) ==> FirstHost(lines) == ""
    ensures forall i :: 0 <= i < |lines| && HostOfLine(lines[i]).Some? && (forall j :: 0 <= j < i ==> HostOfLine(lines[j]) == None)
              ==> FirstHost(lines) == HostOfLine(lines[i]).value
  {
    if lines != [] && HostOfLine(lines[0]) == None {
      var rest := lines[1..];
      FirstHostIs(rest);
      forall i | 0 <= i < |lines| && HostOfLine(lines[i]).Some? && (forall j :: 0 <= j < i ==> HostOfLine(lines[j]) == None)
        ensures FirstHost(lines) == HostOfLine(lines[i]).value
      {
        assert rest[i - 1] == lines[i] && forall j :: 0 <= j < i - 1 ==> HostOfLine(rest[j]) == HostOfLine(lines[j + 1]);
      }
      assert (forall i :: 0 <= i < |lines| ==> HostOfLine(lines[i]) == None) ==> forall i :: 0 <= i < |rest| ==> HostOfLine(rest[i]) == None by {
        if forall i :: 0 <= i < |lines| ==> HostOfLine(lines[i]) == None {
          forall i | 0 <= i < |rest| ensures HostOfLine(rest[i]) == None { assert rest[i] == lines[i + 1]; }
        }
      }
    }
  }

  /** Every dot before n is followed by a slash before n: the last path element has none. */
  predicate NoDotInLast(s: string, n: nat)
    requires n <= |s|
  {
    forall k :: 0 <= k < n && s[k] == '.' ==> exists j :: k < j < n && s[j] == '/'
  }

  lemma {:induction false} DotFromLast(rel: string, n: nat)
    requires n <= |rel|
    ensures match DotFrom(rel, n)
            case Some(i) => i < n && rel[i] == '.' && forall k :: i < k < n ==> rel[k] != '.' && rel[k] != '/'
            case None => NoDotInLast(rel, n)
  {
    if n > 0 {
      if rel[n - 1] == '/' {
        forall k | 0 <= k < n && rel[k] == '.' ensures exists j :: k < j < n && rel[j] == '/' { assert rel[n - 1] == '/'; }
      } else if rel[n - 1] != '.' {
        DotFromLast(rel, n - 1);
      }
    }
  }

  /** A title is the file's label, the path up to the last dot of its last element cleaned of all but
      label characters, behind the remote host if there is another one. */
  lemma DisplayNameIs(rel: string, body: string, stem: string, ext: string)
    requires rel == stem + ext && (ext == "" ==> NoDotInLast(stem, |stem|)) && (ext != "" ==> ext[0] == '.' && '.' !in ext[1..] && '/' !in ext)
    ensures var name, host := (if stem == "" then "profile" else CleanLabel(stem)), RemoteHost(body);
            DisplayName(rel, body) == if host == "" || host == name then name else host + " [" + name + "]"
  {
    StemIs(rel, stem, ext);
  }

  lemma StemIs(rel: string, stem: string, ext: string)
    requires rel == stem + ext && (ext == "" ==> NoDotInLast(stem, |stem|)) && (ext != "" ==> ext[0] == '.' && '.' !in ext[1..] && '/' !in ext)
    ensures WithoutExt(rel) == stem
  {
    DotFromLast(rel, |rel|);
    if ext == "" {
      assert rel == stem;
    } else {
      var n := |stem|;
      assert rel[n] == ext[0];
      forall k | n < k < |rel| ensures rel[k] != '.' && rel[k] != '/' { assert rel[k] == ext[k - n] && ext[k - n] == ext[1..][k - n - 1]; }
      assert rel[n] == '.' && rel[..n] == stem;
      assert DotFrom(rel, |rel|) == Some(n);
    }
  }

  // ---- the profile ---------------------------------------------------------------------------

  function Line1(title: string): string { "# " + FRIENDLY + title }
  function Line2(title: string): string { "# OVPN_ACCESS_SERVER_PROFILE=" + title }
  function Line3(title: string): string { SETENV + " \"" + title + "\"" }

  predicate HasTitle(body: string) {
    Contains(body, FRIENDLY) || Contains(body, SETENV)
  }

  function TitledProfile(rel: string, body: string): string {
    if HasTitle(body) then body
    else
      var title := DisplayName(rel, body);
      Line1(title) + "\n" + (Line2(title) + "\n" + (Line3(title) + "\n" + body))
  }

  /** A title holds no newline, quote or backslash, whatever the path and the profile contain. */
  predicate Safe(title: string) {
    forall i :: 0 <= i < |title| ==> LabelChar(title[i]) || title[i] == '[' || title[i] == ']'
  }

  lemma {:induction false} FirstHostSafe(lines: seq<string>)
    ensures Safe(FirstHost(lines))
  {
    if lines != [] && HostOfLine(lines[0]) == None { FirstHostSafe(lines[1..]); }
  }

  lemma DisplayNameSafe(rel: string, body: string)
    ensures Safe(DisplayName(rel, body))
  {
    FirstHostSafe(Split(body, '\n'));
    assert Safe("profile");
    var name, host := FileLabel(rel), RemoteHost(body);
    assert Safe(name);
    assert Safe(" [") && Safe("]");
  }

  lemma SafeTitle(title: string)
    requires Safe(title)
    ensures '\n' !in title && '"' !in title && '\\' !in title
  {
  }

  /** None of the three lines holds a newline or looks like a remote directive. */
  lemma LinesQuiet(title: string)
    requires Safe(title)
    ensures '\n' !in Line1(title) && '\n' !in Line2(title) && '\n' !in Line3(title)
    ensures Line1(title) != "" && Line1(title)[0] == '#'
    ensures Line2(title) != "" && Line2(title)[0] == '#'
    ensures Line3(title) != "" && Line3(title)[0] == 's'
  {
    SafeTitle(title);
    assert '\n' !in FRIENDLY && '\n' !in SETENV;
    assert '\n' !in "# OVPN_ACCESS_SERVER_PROFILE=";
  }

  lemma {:induction false} TrimRightKeepsHead(s: string)
    requires s != "" && !IsSpace(s[0])
    ensures TrimRight(s) != "" && TrimRight(s)[0] == s[0]
  {
    if IsSpace(s[|s| - 1]) { TrimRightKeepsHead(s[..|s| - 1]); }
  }

  /** A line that starts with another letter than r names no host. */
  lemma NoHost(line: string)
    requires line != "" && !IsSpace(line[0]) && line[0] !in {'r', 'R'}
    ensures HostOfLine(line) == None
  {
    TrimRightKeepsHead(line);
    var t := TrimSpace(line);
    assert TrimLeft(t) == t;
    assert Fields(t)[0] == Word(t) && Word(t)[0] == line[0];
  }

  /** Titling adds nothing if the profile carries a title already, and otherwise exactly three lines in
      front of the profile's own. */
  lemma TitleAddsThreeLines(rel: string, body: string)
    ensures var titled := Contains(body, "OVPN_ACCESS_SERVER_FRIENDLY_NAME=") || Contains(body, "setenv FRIENDLY_NAME");
            var title, own := DisplayName(rel, body), Split(body, '\n');
            Split(TitledProfile(rel, body), '\n') ==
            if titled then own
            else ["# OVPN_ACCESS_SERVER_FRIENDLY_NAME=" + title] + (["# OVPN_ACCESS_SERVER_PROFILE=" + title]
                 + (["setenv FRIENDLY_NAME \"" + title + "\""] + own))
  {
    TitleLines(rel, body);
    LineTexts(DisplayName(rel, body));
  }

  lemma LineTexts(title: string)
    ensures Line1(title) == "# OVPN_ACCESS_SERVER_FRIENDLY_NAME=" + title
    ensures Line2(title) == "# OVPN_ACCESS_SERVER_PROFILE=" + title
    ensures Line3(title) == "setenv FRIENDLY_NAME \"" + title + "\""
  {
  }

  lemma TitleLines(rel: string, body: string)
    ensures var out, title := TitledProfile(rel, body), DisplayName(rel, body);
            Split(out, '\n') ==
            if HasTitle(body) then Split(body, '\n')
            else [Line1(title)] + ([Line2(title)] + ([Line3(title)] + Split(body, '\n')))
  {
    var title := DisplayName(rel, body);
    DisplayNameSafe(rel, body);
    LinesQuiet(title);
    if !HasTitle(body) {
      SplitWhole(Line1(title), '\n');
      SplitWhole(Line2(title), '\n');
      SplitWhole(Line3(title), '\n');
      SplitConcat(Line3(title), body, '\n');
      SplitConcat(Line2(title), Line3(title) + "\n" + body, '\n');
      SplitConcat(Line1(title), Line2(title) + "\n" + (Line3(title) + "\n" + body), '\n');
    }
  }

  /** The profile itself is untouched: it is a suffix. */
  lemma TitleKeepsBody(rel: string, body: string)
    ensures var out := TitledProfile(rel, body);
            |body| <= |out| && out[|out| - |body|..] == body
  {
    var title := DisplayName(rel, body);
    if !HasTitle(body) {
      var head := Line1(title) + "\n" + (Line2(title) + "\n" + (Line3(title) + "\n"));
      assert TitledProfile(rel, body) == head + body;
    }
  }

  /** Titling changes neither the remote host nor the display name. */
  lemma TitleKeepsMeaning(rel: string, body: string)
    ensures RemoteHost(TitledProfile(rel, body)) == RemoteHost(body)
    ensures DisplayName(rel, TitledProfile(rel, body)) == DisplayName(rel, body)
  {
    var title := DisplayName(rel, body);
    TitleLines(rel, body);
    if !HasTitle(body) {
      DisplayNameSafe(rel, body);
      LinesQuiet(title);
      NoHost(Line1(title));
      NoHost(Line2(title));
      NoHost(Line3(title));
      var own := Split(body, '\n');
      SkipLine(Line3(title), own);
      SkipLine(Line2(title), [Line3(title)] + own);
      SkipLine(Line1(title), [Line2(title)] + ([Line3(title)] + own));
    }
  }

  lemma SkipLine(line: string, rest: seq<string>)
    requires HostOfLine(line) == None
    ensures FirstHost([line] + rest) == FirstHost(rest)
  {
    assert ([line] + rest)[0] == line && ([line] + rest)[1..] == rest;
  }

  lemma ContainsMiddle(a: string, sub: string, b: string)
    ensures Contains(a + sub + b, sub)
  {
    var s := a + sub + b;
    assert s[|a|..] == sub + b;
  }

  /** Titling twice is titling once. */
  lemma TitleIdempotent(rel: string, body: string)
    ensures TitledProfile(rel, TitledProfile(rel, body)) == TitledProfile(rel, body)
  {
    if !HasTitle(body) {
      var title := DisplayName(rel, body);
      var rest := "\n" + (Line2(title) + "\n" + (Line3(title) + "\n" + body));
      ContainsMiddle("# ", FRIENDLY, title + rest);
      assert TitledProfile(rel, body) == "# " + FRIENDLY + (title + rest);
    }
  }
}
