/** mc/server_properties.go: rewriting values in server.properties and reading them back.

    Text is a sequence of Unicode characters. `lower` is the case folding of single characters; all
    that is asked of it is that it leaves '#' alone. The order in which missing properties are
    appended follows a map iteration, so it is a parameter that every property quantifies over. */
module ServerProperties {
  import opened Bytes

  type Fold = char -> char

  type Changes = map<string, string>

  // ---- text ----

  predicate IsSpace(c: char) {
    || '\t' <= c <= '\r' || c == ' ' || c == '\U{85}' || c == '\U{A0}' || c == '\U{1680}'
    || '\U{2000}' <= c <= '\U{200A}' || c == '\U{2028}' || c == '\U{2029}' || c == '\U{202F}'
    || c == '\U{205F}' || c == '\U{3000}'
  }

  function TrimLeft(s: string): string {
    if s != "" && IsSpace(s[0]) then TrimLeft(s[1..]) else s
  }

  function TrimRight(s: string): string {
    if s != "" && IsSpace(s[|s| - 1]) then TrimRight(s[..|s| - 1]) else s
  }

  function Trim(s: string): string {
    TrimRight(TrimLeft(s))
  }

  predicate Trimmed(s: string) {
    s != "" ==> !IsSpace(s[0]) && !IsSpace(s[|s| - 1])
  }

  function TrimReturn(s: string): string {
    if s != "" && s[|s| - 1] == '\r' then s[..|s| - 1] else s
  }

  function Lower(lower: Fold, s: string): string {
    seq(|s|, i requires 0 <= i < |s| => lower(s[i]))
  }

  /** The position of the first '=', or the length. */
  function EqualsAt(s: string): (i: nat)
    ensures i <= |s| && '=' !in s[..i] && (i < |s| ==> s[i] == '=')
  {
    if s == "" || s[0] == '=' then 0 else 1 + EqualsAt(s[1..])
  }

  function Split(s: string): (pieces: seq<string>)
    ensures |pieces| > 0
  {
    if s == "" then [""]
    else
      var rest := Split(s[1..]);
      if s[0] == '\n' then [""] + rest else [[s[0]] + rest[0]] + rest[1..]
  }

  const EOL := "\r\n"

  function Join(lines: seq<string>): string {
    if lines == [] then ""
    else if |lines| == 1 then lines[0]
    else lines[0] + EOL + Join(lines[1..])
  }

  // ---- lines ----

  function Clean(pieces: seq<string>): seq<string> {
    if pieces == [] then []
    else if TrimReturn(pieces[0]) == "" then Clean(pieces[1..])
    else [TrimReturn(pieces[0])] + Clean(pieces[1..])
  }

  function Lines(contents: string): seq<string> {
    Clean(Split(contents))
  }

  /** What stands before the first '='. */
  function KeyOf(line: string): Option<string> {
    if EqualsAt(line) < |line| then Some(Trim(line[..EqualsAt(line)])) else None
  }

  function ValueOf(line: string): string
    requires KeyOf(line).Some?
  {
    line[EqualsAt(line) + 1..]
  }

  predicate IsComment(line: string) {
    Trim(line) == "" || Trim(line)[0] == '#'
  }

  /** The folded name of the property that a line sets, if it sets one. */
  function NameOf(lower: Fold, line: string): Option<string> {
    if IsComment(line) || KeyOf(line).None? then None else Some(Lower(lower, KeyOf(line).value))
  }

  // ---- rewriting ----

  predicate Matches(lower: Fold, line: string, remaining: Changes) {
    NameOf(lower, line).Some? && NameOf(lower, line).value in remaining
  }

  predicate Stale(lower: Fold, line: string, remaining: Changes) {
    Matches(lower, line, remaining) && ValueOf(line) != remaining[NameOf(lower, line).value]
  }

  function Assignment(key: string, value: string): string {
    key + "=" + value
  }

  function NewLine(lower: Fold, line: string, remaining: Changes): string {
    if Stale(lower, line, remaining) then Assignment(KeyOf(line).value, remaining[NameOf(lower, line).value]) else line
  }

  function RemainingAfter(lower: Fold, line: string, remaining: Changes): Changes {
    if Matches(lower, line, remaining) then remaining - {NameOf(lower, line).value} else remaining
  }

  datatype Rewrite = Rewrite(lines: seq<string>, remaining: Changes, changed: bool)

  function RewriteLines(lower: Fold, lines: seq<string>, remaining: Changes): Rewrite
    decreases lines
  {
    if lines == [] then Rewrite([], remaining, false)
    else
      var rest := RewriteLines(lower, lines[1..], RemainingAfter(lower, lines[0], remaining));
      Rewrite([NewLine(lower, lines[0], remaining)] + rest.lines, rest.remaining, Stale(lower, lines[0], remaining) || rest.changed)
  }

  function Appended(changes: Changes, order: seq<string>): (lines: seq<string>)
    requires forall k <- order :: k in changes
    ensures |lines| == |order|
  {
    if order == [] then [] else [Assignment(order[0], changes[order[0]])] + Appended(changes, order[1..])
  }

  function Tail(lines: seq<string>): string {
    if lines == [] then "" else EOL + lines[0] + Tail(lines[1..])
  }

  /** An order in which a map iteration may visit these changes. */
  ghost predicate IsOrder(order: seq<string>, remaining: Changes) {
    && (forall k :: k in order <==> k in remaining)
    && (forall i, j :: 0 <= i < j < |order| ==> order[i] != order[j])
  }

  /** An order in which a rewrite may append what it did not find. */
  ghost predicate AppendOrder(lower: Fold, contents: string, changes: Changes, order: seq<string>) {
    IsOrder(order, RewriteLines(lower, Lines(contents), changes).remaining)
  }

  ghost function Rewritten(lower: Fold, contents: string, changes: Changes, order: seq<string>): (string, bool)
    requires AppendOrder(lower, contents, changes, order)
  {
    if changes == map[] then (contents, false)
    else
      RemainingIsPart(lower, Lines(contents), changes);
      var r := RewriteLines(lower, Lines(contents), changes);
      (Join(r.lines) + Tail(Appended(changes, order)), r.changed || order != [])
  }

  // ---- reading ----

  predicate Reads(lower: Fold, line: string, property: string) {
    KeyOf(line).Some? && Lower(lower, KeyOf(line).value) == Lower(lower, property)
  }

  function ReadProperty(lower: Fold, lines: seq<string>, property: string): Option<string> {
    if lines == [] then None
    else if Reads(lower, lines[0], property) then Some(Trim(ValueOf(lines[0])))
    else ReadProperty(lower, lines[1..], property)
  }

  // ---- the hypotheses ----

  /** Trimmed, folded names without '=', newline or leading '#', and values without line breaks. */
  ghost predicate WellFormed(lower: Fold, changes: Changes) {
    && lower('#') == '#'
    && forall k <- changes ::
         && Trimmed(k) && Lower(lower, k) == k && '=' !in k && '\n' !in k && (k != "" ==> k[0] != '#')
         && '\r' !in changes[k] && '\n' !in changes[k]
  }

  /** The white space of Unicode, code point by code point. */
  lemma SpacesExactly(c: char)
    ensures IsSpace(c) <==>
              c as int in {0x09, 0x0A, 0x0B, 0x0C, 0x0D, 0x20, 0x85, 0xA0, 0x1680, 0x2000, 0x2001, 0x2002, 0x2003, 0x2004,
                           0x2005, 0x2006, 0x2007, 0x2008, 0x2009, 0x200A, 0x2028, 0x2029, 0x202F, 0x205F, 0x3000}
  {
  }

  // ---- trimming ----

  lemma {:induction false} TrimLeftConcat(a: string, b: string)
    requires b != "" && !IsSpace(b[0])
    ensures TrimLeft(a + b) == TrimLeft(a) + b
    decreases a
  {
    if a == "" {
      assert a + b == b;
    } else {
      assert (a + b)[1..] == a[1..] + b && (a + b)[0] == a[0];
      if IsSpace(a[0]) {
        TrimLeftConcat(a[1..], b);
      }
    }
  }

  lemma {:induction false} TrimLeftReturn(s: string)
    ensures TrimLeft(s + "\r") == if TrimLeft(s) == "" then "" else TrimLeft(s) + "\r"
    decreases s
  {
    if s == "" {
      assert (s + "\r")[1..] == "";
    } else {
      assert (s + "\r")[1..] == s[1..] + "\r" && (s + "\r")[0] == s[0];
      if IsSpace(s[0]) {
        TrimLeftReturn(s[1..]);
      }
    }
  }

  lemma TrimIgnoresReturn(s: string)
    ensures Trim(s + "\r") == Trim(s)
  {
    TrimLeftReturn(s);
    var t := TrimLeft(s) + "\r";
    assert t[..|t| - 1] == TrimLeft(s);
  }

  lemma {:induction false} TrimRightShape(s: string)
    ensures var t := TrimRight(s); t <= s && (t != "" ==> !IsSpace(t[|t| - 1]))
    ensures s != "" && !IsSpace(s[0]) ==> TrimRight(s) != ""
    decreases s
  {
    if s != "" && IsSpace(s[|s| - 1]) {
      TrimRightShape(s[..|s| - 1]);
    }
  }

  lemma {:induction false} TrimLeftShape(s: string)
    ensures var t := TrimLeft(s);
            (t != "" ==> !IsSpace(t[0])) && forall c :: c in t ==> c in s
    decreases s
  {
    if s != "" && IsSpace(s[0]) {
      TrimLeftShape(s[1..]);
    }
  }

  /** Trimming gives a trimmed text with no new characters, keeps the first character that is not
      space, and leaves trimmed texts alone. */
  lemma TrimShape(s: string)
    ensures Trimmed(Trim(s)) && (Trimmed(s) ==> Trim(s) == s)
    ensures forall c :: c in Trim(s) ==> c in s
    ensures Trim(s) == "" <==> TrimLeft(s) == ""
    ensures Trim(s) != "" ==> Trim(s)[0] == TrimLeft(s)[0]
  {
    TrimLeftShape(s);
    TrimRightShape(TrimLeft(s));
    assert forall c :: c in TrimRight(TrimLeft(s)) ==> c in TrimLeft(s);
  }

  // ---- lines with a key ----

  lemma {:induction false} EqualsAtUnique(a: string, b: string)
    requires '=' !in a
    ensures EqualsAt(a + "=" + b) == |a|
    decreases a
  {
    var s := a + "=" + b;
    if a != "" {
      assert s[1..] == a[1..] + "=" + b && s[0] == a[0] && s[0] in a;
      EqualsAtUnique(a[1..], b);
    }
  }

  lemma {:induction false} EqualsAtReturn(s: string)
    ensures EqualsAt(s + "\r") == if EqualsAt(s) < |s| then EqualsAt(s) else |s| + 1
    decreases s
  {
    if s == "" {
      assert (s + "\r")[1..] == "";
    } else {
      assert (s + "\r")[1..] == s[1..] + "\r" && (s + "\r")[0] == s[0];
      if s[0] != '=' {
        EqualsAtReturn(s[1..]);
      }
    }
  }

  /** A line with a key is a comment exactly if its key starts with '#'. */
  lemma CommentByKey(line: string)
    requires KeyOf(line).Some?
    ensures var key := KeyOf(line).value; IsComment(line) <==> key != "" && key[0] == '#'
  {
    var i := EqualsAt(line);
    var a, b := line[..i], line[i..];
    assert line == a + b;
    TrimLeftConcat(a, b);
    TrimShape(line);
    TrimShape(a);
  }

  lemma AssignmentParts(key: string, value: string)
    requires '=' !in key && Trimmed(key)
    ensures KeyOf(Assignment(key, value)) == Some(key) && ValueOf(Assignment(key, value)) == value
  {
    EqualsAtUnique(key, value);
    var line := Assignment(key, value);
    assert line[..|key|] == key && line[|key| + 1..] == value;
    TrimShape(key);
  }

  lemma KeyShape(line: string)
    requires KeyOf(line).Some?
    ensures var key := KeyOf(line).value; '=' !in key && Trimmed(key) && ('\n' !in line ==> '\n' !in key)
  {
    var a := line[..EqualsAt(line)];
    TrimShape(a);
    assert forall c :: c in a ==> c in line;
  }

  lemma ReturnIsNothing(s: string)
    ensures KeyOf(s + "\r") == KeyOf(s) && IsComment(s + "\r") == IsComment(s)
    ensures KeyOf(s).Some? ==> ValueOf(s + "\r") == ValueOf(s) + "\r"
  {
    EqualsAtReturn(s);
    TrimIgnoresReturn(s);
    if KeyOf(s).Some? {
      var i := EqualsAt(s);
      assert (s + "\r")[..i] == s[..i];
      assert (s + "\r")[i + 1..] == s[i + 1..] + "\r";
    }
  }

  /** A carriage return at the end of a line changes neither its key nor what is read from it. */
  lemma TrimReturnIsNothing(lower: Fold, line: string, property: string)
    ensures var t := TrimReturn(line);
            && KeyOf(t) == KeyOf(line) && NameOf(lower, t) == NameOf(lower, line)
            && Reads(lower, t, property) == Reads(lower, line, property)
            && (KeyOf(line).Some? ==> Trim(ValueOf(t)) == Trim(ValueOf(line)))
  {
    var t := TrimReturn(line);
    if t != line {
      assert line == t + "\r";
      ReturnIsNothing(t);
      if KeyOf(t).Some? {
        TrimIgnoresReturn(ValueOf(t));
      }
    }
  }

  // ---- one line ----

  /** A rewritten line sets the same property, to the new value. */
  lemma NewLineSets(lower: Fold, line: string, remaining: Changes)
    ensures var t := NewLine(lower, line, remaining);
            && KeyOf(t) == KeyOf(line) && NameOf(lower, t) == NameOf(lower, line)
            && (Matches(lower, line, remaining) ==> ValueOf(t) == remaining[NameOf(lower, line).value])
  {
    if Stale(lower, line, remaining) {
      KeyShape(line);
      AssignmentParts(KeyOf(line).value, remaining[NameOf(lower, line).value]);
      CommentByKey(line);
      CommentByKey(NewLine(lower, line, remaining));
    }
  }

  // ---- all lines ----

  lemma RewriteUnfold(lower: Fold, lines: seq<string>, changes: Changes)
    requires lines != []
    ensures var t := RewriteLines(lower, lines[1..], RemainingAfter(lower, lines[0], changes));
            RewriteLines(lower, lines, changes) ==
              Rewrite([NewLine(lower, lines[0], changes)] + t.lines, t.remaining, Stale(lower, lines[0], changes) || t.changed)
  {
  }

  lemma {:induction false} RemainingIsPart(lower: Fold, lines: seq<string>, remaining: Changes)
    ensures var r := RewriteLines(lower, lines, remaining);
            forall k <- r.remaining :: k in remaining && r.remaining[k] == remaining[k]
    decreases lines
  {
    if lines != [] {
      RemainingIsPart(lower, lines[1..], RemainingAfter(lower, lines[0], remaining));
    }
  }

  /** Line `i` is the first that sets its property, and sets it to something else than `changes` do. */
  ghost predicate Due(lower: Fold, lines: seq<string>, changes: Changes, i: nat)
    requires i < |lines|
  {
    && Stale(lower, lines[i], changes)
    && forall j :: 0 <= j < i ==> NameOf(lower, lines[j]) != NameOf(lower, lines[i])
  }

  /** Whether a line is due looks the same from the second line on. */
  lemma DueFromSecond(lower: Fold, lines: seq<string>, changes: Changes, i: nat)
    requires 0 < i < |lines|
    ensures var rest := RemainingAfter(lower, lines[0], changes);
            && Due(lower, lines, changes, i) == Due(lower, lines[1..], rest, i - 1)
            && (Due(lower, lines, changes, i) ==> NewLine(lower, lines[i], rest) == NewLine(lower, lines[i], changes))
  {
    hide NameOf;
    var tail, rest := lines[1..], RemainingAfter(lower, lines[0], changes);
    assert tail[i - 1] == lines[i];
    if Due(lower, tail, rest, i - 1) {
      forall j | 0 <= j < i
        ensures NameOf(lower, lines[j]) != NameOf(lower, lines[i])
      {
        assert j > 0 ==> tail[j - 1] == lines[j];
      }
    }
    if Due(lower, lines, changes, i) {
      assert NameOf(lower, lines[0]) != NameOf(lower, lines[i]);
      forall j | 0 <= j < i - 1
        ensures NameOf(lower, tail[j]) != NameOf(lower, tail[i - 1])
      {
        assert tail[j] == lines[j + 1];
      }
    }
  }

  /** Every line survives in its place, except that the first line of each changed property gets the
      new value under its own spelling of the key; the report says whether there was such a line. */
  lemma {:induction false} LinesSurvive(lower: Fold, lines: seq<string>, changes: Changes)
    ensures var r := RewriteLines(lower, lines, changes);
            && |r.lines| == |lines|
            && (forall i :: 0 <= i < |lines| ==>
                  r.lines[i] == if Due(lower, lines, changes, i)
                                then Assignment(KeyOf(lines[i]).value, changes[NameOf(lower, lines[i]).value]) else lines[i])
            && (r.changed <==> exists i :: 0 <= i < |lines| && Due(lower, lines, changes, i))
    decreases lines
  {
    if lines != [] {
      var tail, rest := lines[1..], RemainingAfter(lower, lines[0], changes);
      var r, t := RewriteLines(lower, lines, changes), RewriteLines(lower, tail, rest);
      LinesSurvive(lower, tail, rest);
      forall i | 0 < i < |lines|
        ensures Due(lower, lines, changes, i) == Due(lower, tail, rest, i - 1)
        ensures r.lines[i] == if Due(lower, lines, changes, i) then NewLine(lower, lines[i], changes) else lines[i]
      {
        DueFromSecond(lower, lines, changes, i);
        assert r.lines[i] == t.lines[i - 1] && tail[i - 1] == lines[i];
      }
      assert Due(lower, lines, changes, 0) == Stale(lower, lines[0], changes);
      if t.changed {
        var j :| 0 <= j < |tail| && Due(lower, tail, rest, j);
        assert Due(lower, lines, changes, j + 1);
      }
    }
  }

  /** Comments, blank lines and lines without '=' survive every rewrite, whatever the changes are called. */
  lemma CommentsSurvive(lower: Fold, lines: seq<string>, changes: Changes, i: nat)
    requires i < |lines| && (Trim(lines[i]) == "" || Trim(lines[i])[0] == '#' || '=' !in lines[i])
    ensures i < |RewriteLines(lower, lines, changes).lines| && RewriteLines(lower, lines, changes).lines[i] == lines[i]
  {
    LinesSurvive(lower, lines, changes);
    hide RewriteLines;
  }

  /** What remains to be appended are the changes of properties that no line sets. */
  lemma {:induction false} RemainingExactly(lower: Fold, lines: seq<string>, changes: Changes)
    ensures var r := RewriteLines(lower, lines, changes).remaining;
            && (forall k :: k in r <==> k in changes && forall i :: 0 <= i < |lines| ==> NameOf(lower, lines[i]) != Some(k))
            && (forall k <- r :: r[k] == changes[k])
    decreases lines
  {
    hide NameOf;
    RemainingIsPart(lower, lines, changes);
    if lines != [] {
      var tail, rest := lines[1..], RemainingAfter(lower, lines[0], changes);
      var r := RewriteLines(lower, lines, changes).remaining;
      RemainingExactly(lower, tail, rest);
      forall k | k in r
        ensures forall i :: 0 <= i < |lines| ==> NameOf(lower, lines[i]) != Some(k)
      {
        forall i | 0 <= i < |lines|
          ensures NameOf(lower, lines[i]) != Some(k)
        {
          assert i > 0 ==> lines[i] == tail[i - 1];
        }
      }
      forall k | k in changes && forall i :: 0 <= i < |lines| ==> NameOf(lower, lines[i]) != Some(k)
        ensures k in r
      {
        assert forall i :: 0 <= i < |tail| ==> tail[i] == lines[i + 1];
      }
    }
  }

  // ---- the rewritten file, split again ----

  predicate IsLine(line: string) {
    line != "" && '\n' !in line
  }

  ghost predicate AreLines(lines: seq<string>) {
    forall i :: 0 <= i < |lines| ==> IsLine(lines[i])
  }

  /** A file ending in these lines loses one carriage return at its very end when it is split. */
  function Settle(lines: seq<string>): seq<string> {
    if lines == [] then []
    else if |lines| > 1 then [lines[0]] + Settle(lines[1..])
    else if TrimReturn(lines[0]) == "" then []
    else [TrimReturn(lines[0])]
  }

  lemma {:induction false} SplitLine(a: string, rest: string)
    requires '\n' !in a
    ensures Split(a) == [a]
    ensures Split(a + "\n" + rest) == [a] + Split(rest)
    decreases a
  {
    var s := a + "\n" + rest;
    if a == "" {
      assert s[1..] == rest;
    } else {
      assert s[1..] == a[1..] + "\n" + rest && s[0] == a[0] && a[0] in a;
      SplitLine(a[1..], rest);
      assert [a[0]] + a[1..] == a;
    }
  }

  lemma {:induction false} SplitPieces(s: string)
    ensures forall i :: 0 <= i < |Split(s)| ==> '\n' !in Split(s)[i]
    decreases s
  {
    if s != "" {
      SplitPieces(s[1..]);
    }
  }

  lemma {:induction false} CleanGivesLines(pieces: seq<string>)
    requires forall i :: 0 <= i < |pieces| ==> '\n' !in pieces[i]
    ensures AreLines(Clean(pieces))
    decreases pieces
  {
    if pieces != [] {
      CleanGivesLines(pieces[1..]);
    }
  }

  lemma LinesAreLines(contents: string)
    ensures AreLines(Lines(contents))
  {
    SplitPieces(contents);
    CleanGivesLines(Split(contents));
  }

  lemma {:induction false} LinesOfJoin(lines: seq<string>)
    requires AreLines(lines)
    ensures Lines(Join(lines)) == Settle(lines)
    decreases lines
  {
    if lines == [] {
      assert Split("") == [""];
      assert [""][1..] == [];
    } else if |lines| == 1 {
      SplitLine(lines[0], "");
      assert Split(lines[0])[1..] == [] && Clean([]) == [];
      assert Lines(lines[0]) == Clean([lines[0]]);
    } else {
      LinesOfJoin(lines[1..]);
      var a, rest := lines[0] + "\r", Join(lines[1..]);
      assert Join(lines) == a + "\n" + rest;
      SplitLine(a, rest);
      assert a[..|a| - 1] == lines[0];
      assert ([a] + Split(rest))[1..] == Split(rest);
    }
  }

  lemma {:induction false} TailIsJoin(more: seq<string>)
    requires more != []
    ensures Tail(more) == EOL + Join(more)
    decreases more
  {
    if |more| > 1 {
      TailIsJoin(more[1..]);
      assert EOL + more[0] + (EOL + Join(more[1..])) == EOL + (more[0] + EOL + Join(more[1..]));
    } else {
      assert Tail(more[1..]) == "";
    }
  }

  lemma {:induction false} JoinConcat(lines: seq<string>, more: seq<string>)
    requires lines != [] && more != []
    ensures Join(lines + more) == Join(lines) + EOL + Join(more)
    decreases lines
  {
    var all := lines + more;
    assert all[0] == lines[0] && all[1..] == lines[1..] + more;
    if |lines| > 1 {
      JoinConcat(lines[1..], more);
      var a, j, m := lines[0], Join(lines[1..]), Join(more);
      assert a + EOL + (j + EOL + m) == (a + EOL + j) + EOL + m;
    } else {
      assert lines[1..] + more == more;
    }
  }

  lemma LinesOfRewritten(lines: seq<string>, more: seq<string>)
    requires AreLines(lines) && AreLines(more)
    ensures Lines(Join(lines) + Tail(more)) == Settle(lines + more)
  {
    LinesOfJoin(lines + more);
    if more == [] {
      assert lines + more == lines && Join(lines) + Tail(more) == Join(lines);
    } else {
      TailIsJoin(more);
      if lines != [] {
        JoinConcat(lines, more);
        assert Join(lines) + (EOL + Join(more)) == Join(lines) + EOL + Join(more);
      } else {
        assert lines + more == more;
        var rest := Join(more);
        assert Join(lines) + Tail(more) == "\r" + "\n" + rest;
        SplitLine("\r", rest);
        assert (["\r"] + Split(rest))[1..] == Split(rest);
      }
    }
  }

  // ---- what a rewrite leaves for reading and rewriting ----

  lemma {:induction false} RewriteGivesLines(lower: Fold, lines: seq<string>, changes: Changes)
    requires AreLines(lines) && WellFormed(lower, changes)
    ensures AreLines(RewriteLines(lower, lines, changes).lines)
    decreases lines
  {
    if lines != [] {
      var rest := RemainingAfter(lower, lines[0], changes);
      if Stale(lower, lines[0], changes) {
        KeyShape(lines[0]);
        assert IsLine(lines[0]);
      }
      RewriteGivesLines(lower, lines[1..], rest);
    }
  }

  lemma SettledLine(lower: Fold, line: string, changes: Changes)
    requires !Stale(lower, line, changes)
    ensures NewLine(lower, line, changes) == line
  {
  }

  /** The lines already hold the changes, and set all of them but `left`. */
  ghost predicate Holds(lower: Fold, lines: seq<string>, changes: Changes, left: Changes) {
    RewriteLines(lower, lines, changes) == Rewrite(lines, left, false)
  }

  lemma {:induction false} HoldsUnfold(lower: Fold, lines: seq<string>, changes: Changes, left: Changes)
    requires lines != []
    ensures Holds(lower, lines, changes, left) <==>
              !Stale(lower, lines[0], changes) && Holds(lower, lines[1..], RemainingAfter(lower, lines[0], changes), left)
  {
    RewriteUnfold(lower, lines, changes);
    if !Stale(lower, lines[0], changes) {
      SettledLine(lower, lines[0], changes);
      hide RewriteLines, NewLine, Stale, RemainingAfter;
      var t := RewriteLines(lower, lines[1..], RemainingAfter(lower, lines[0], changes)).lines;
      assert ([lines[0]] + t)[1..] == t;
      assert [lines[0]] + lines[1..] == lines;
    }
  }

  lemma {:induction false} HoldsConcat(lower: Fold, a: seq<string>, b: seq<string>, changes: Changes, between: Changes, left: Changes)
    requires Holds(lower, a, changes, between) && Holds(lower, b, between, left)
    ensures Holds(lower, a + b, changes, left)
    decreases a
  {
    if a == [] {
      assert a + b == b;
    } else {
      hide Holds, Stale, RemainingAfter;
      HoldsUnfold(lower, a, changes, between);
      HoldsUnfold(lower, a + b, changes, left);
      assert (a + b)[0] == a[0] && (a + b)[1..] == a[1..] + b;
      HoldsConcat(lower, a[1..], b, RemainingAfter(lower, a[0], changes), between, left);
    }
  }

  /** Rewriting what a rewrite has written changes nothing and uses up the same changes. */
  lemma {:induction false} RewriteAgain(lower: Fold, lines: seq<string>, changes: Changes)
    ensures var r := RewriteLines(lower, lines, changes);
            Holds(lower, r.lines, changes, r.remaining)
    decreases lines
  {
    if lines != [] {
      var rest, line := RemainingAfter(lower, lines[0], changes), NewLine(lower, lines[0], changes);
      NewLineSets(lower, lines[0], changes);
      SettledLine(lower, line, changes);
      RewriteAgain(lower, lines[1..], rest);
      hide NewLine, Stale, RemainingAfter;
      assert RewriteLines(lower, lines, changes).lines[1..] == RewriteLines(lower, lines[1..], rest).lines;
    }
  }

  lemma AppendedSets(lower: Fold, changes: Changes, k: string)
    requires WellFormed(lower, changes) && k in changes
    ensures var line := Assignment(k, changes[k]);
            && IsLine(line) && TrimReturn(line) == line
            && KeyOf(line) == Some(k) && NameOf(lower, line) == Some(k) && ValueOf(line) == changes[k]
  {
    AssignmentParts(k, changes[k]);
    CommentByKey(Assignment(k, changes[k]));
  }

  lemma {:induction false} AppendedAgain(lower: Fold, changes: Changes, remaining: Changes, order: seq<string>)
    requires WellFormed(lower, changes) && IsOrder(order, remaining)
    requires forall k <- remaining :: k in changes && remaining[k] == changes[k]
    ensures AreLines(Appended(changes, order))
    ensures Holds(lower, Appended(changes, order), remaining, map[])
    decreases order
  {
    hide WellFormed, KeyOf, ValueOf, NameOf, Assignment, IsLine;
    var lines := Appended(changes, order);
    if order != [] {
      var k := order[0];
      assert k in remaining;
      AppendedSets(lower, changes, k);
      OrderRest(order, remaining);
      AppendedAgain(lower, changes, remaining - {k}, order[1..]);
      assert lines[0] == Assignment(k, changes[k]) && lines[1..] == Appended(changes, order[1..]);
    } else {
      assert forall k :: k !in remaining;
      assert remaining == map[];
    }
  }

  lemma OrderRest(order: seq<string>, remaining: Changes)
    requires IsOrder(order, remaining) && order != []
    ensures IsOrder(order[1..], remaining - {order[0]})
  {
    assert order == [order[0]] + order[1..];
  }

  /** A carriage return lost at the end of the file is not a change. */
  lemma {:induction false} SettleIsNoChange(lower: Fold, lines: seq<string>, changes: Changes, left: Changes)
    requires WellFormed(lower, changes) && Holds(lower, lines, changes, left)
    ensures Holds(lower, Settle(lines), changes, left)
    decreases lines
  {
    if |lines| > 1 {
      SettleIsNoChange(lower, lines[1..], RemainingAfter(lower, lines[0], changes), left);
      assert Settle(lines)[1..] == Settle(lines[1..]);
    } else if |lines| == 1 {
      SettleOneLine(lower, lines[0], changes);
    }
  }

  lemma SettleOneLine(lower: Fold, line: string, changes: Changes)
    requires WellFormed(lower, changes) && !Stale(lower, line, changes)
    ensures !Stale(lower, TrimReturn(line), changes)
    ensures RemainingAfter(lower, TrimReturn(line), changes) == RemainingAfter(lower, line, changes)
    ensures TrimReturn(line) == "" ==> RemainingAfter(lower, line, changes) == changes
  {
    hide KeyOf, ValueOf, IsComment, Lower;
    var t := TrimReturn(line);
    TrimReturnIsNothing(lower, line, "");
    EmptyHasNoKey();
    if KeyOf(line).Some? && t != line {
      assert line == t + "\r";
      ReturnIsNothing(t);
      var v := ValueOf(line);
      assert v[|v| - 1] == '\r';
    }
  }

  // ---- reading ----

  /** Reading looks through the raw pieces of a file or through its lines, with the same answer. */
  lemma {:induction false} ReadCleaned(lower: Fold, pieces: seq<string>, property: string)
    ensures ReadProperty(lower, Clean(pieces), property) == ReadProperty(lower, pieces, property)
    decreases pieces
  {
    if pieces != [] {
      hide KeyOf, ValueOf;
      TrimReturnIsNothing(lower, pieces[0], property);
      ReadCleaned(lower, pieces[1..], property);
      if TrimReturn(pieces[0]) == "" {
        EmptyHasNoKey();
      } else {
        assert Clean(pieces)[1..] == Clean(pieces[1..]);
      }
    }
  }

  lemma EmptyHasNoKey()
    ensures KeyOf("").None?
  {
  }

  lemma {:induction false} ReadSettled(lower: Fold, lines: seq<string>, property: string)
    ensures ReadProperty(lower, Settle(lines), property) == ReadProperty(lower, lines, property)
    decreases lines
  {
    if lines != [] {
      hide KeyOf, ValueOf;
      TrimReturnIsNothing(lower, lines[0], property);
      EmptyHasNoKey();
      if |lines| > 1 {
        ReadSettled(lower, lines[1..], property);
        assert Settle(lines)[1..] == Settle(lines[1..]);
      } else {
        assert lines[1..] == [];
        assert Settle(lines) != [] ==> Settle(lines)[1..] == [];
      }
    }
  }

  /** Reading a property and matching it in a rewrite look at the same lines. */
  lemma ReadsWhatMatches(lower: Fold, line: string, changes: Changes, property: string)
    requires WellFormed(lower, changes) && Lower(lower, property) in changes
    ensures Reads(lower, line, property) <==> NameOf(lower, line) == Some(Lower(lower, property))
  {
    if KeyOf(line).Some? {
      CommentByKey(line);
    }
  }

  lemma PartIsWellFormed(lower: Fold, changes: Changes, part: Changes)
    requires WellFormed(lower, changes)
    requires forall k <- part :: k in changes && part[k] == changes[k]
    ensures WellFormed(lower, part)
  {
  }

  lemma {:induction false} ReadConcat(lower: Fold, a: seq<string>, b: seq<string>, property: string)
    ensures ReadProperty(lower, a + b, property) ==
              if ReadProperty(lower, a, property).Some? then ReadProperty(lower, a, property) else ReadProperty(lower, b, property)
    decreases a
  {
    hide KeyOf, ValueOf, Lower, Trim;
    if a == [] {
      assert a + b == b;
    } else {
      ReadConcat(lower, a[1..], b, property);
      assert (a + b)[0] == a[0] && (a + b)[1..] == a[1..] + b;
    }
  }

  /** One line, before and after: it is read for a changed property exactly if it used that change up. */
  lemma ReadNewLine(lower: Fold, line: string, changes: Changes, property: string)
    requires WellFormed(lower, changes) && Lower(lower, property) in changes
    ensures var k := Lower(lower, property);
            var t := NewLine(lower, line, changes);
            var rest := RemainingAfter(lower, line, changes);
            && (Reads(lower, t, property) <==> k !in rest)
            && (k !in rest ==> ValueOf(t) == changes[k])
            && (k in rest ==> rest[k] == changes[k])
  {
    NewLineSets(lower, line, changes);
    ReadsWhatMatches(lower, line, changes, property);
    hide KeyOf, ValueOf, NameOf, NewLine, Lower, WellFormed;
  }

  /** After a rewrite a changed property reads as its new value, unless no line sets it. */
  lemma {:induction false} ReadRewritten(lower: Fold, lines: seq<string>, changes: Changes, property: string)
    requires WellFormed(lower, changes) && Lower(lower, property) in changes
    ensures var r := RewriteLines(lower, lines, changes);
            var k := Lower(lower, property);
            ReadProperty(lower, r.lines, property) == if k in r.remaining then None else Some(Trim(changes[k]))
    decreases lines
  {
    if lines != [] {
      var r, rest := RewriteLines(lower, lines, changes), RemainingAfter(lower, lines[0], changes);
      ReadNewLine(lower, lines[0], changes, property);
      RemainingIsPart(lower, lines[1..], rest);
      PartIsWellFormed(lower, changes, rest);
      hide NewLine, Stale, RemainingAfter, Reads, Lower, ValueOf, WellFormed, Trim;
      assert r.lines[1..] == RewriteLines(lower, lines[1..], rest).lines;
      if Lower(lower, property) in rest {
        ReadRewritten(lower, lines[1..], rest, property);
      }
    }
  }

  lemma {:induction false} ReadAppended(lower: Fold, changes: Changes, order: seq<string>, property: string)
    requires WellFormed(lower, changes) && forall k <- order :: k in changes
    ensures var k := Lower(lower, property);
            ReadProperty(lower, Appended(changes, order), property) == if k in order then Some(Trim(changes[k])) else None
    decreases order
  {
    hide WellFormed, KeyOf, ValueOf;
    if order != [] {
      assert order == [order[0]] + order[1..];
      AppendedSets(lower, changes, order[0]);
      assert Lower(lower, order[0]) == order[0] by {
        FoldedKey(lower, changes, order[0]);
      }
      ReadAppended(lower, changes, order[1..], property);
      assert Appended(changes, order)[1..] == Appended(changes, order[1..]);
    }
  }

  lemma FoldedKey(lower: Fold, changes: Changes, k: string)
    requires WellFormed(lower, changes) && k in changes
    ensures Lower(lower, k) == k
  {
  }

  lemma {:induction false} ReadOther(lower: Fold, lines: seq<string>, changes: Changes, property: string)
    requires Lower(lower, property) !in changes
    ensures ReadProperty(lower, RewriteLines(lower, lines, changes).lines, property) == ReadProperty(lower, lines, property)
    decreases lines
  {
    if lines != [] {
      var r, rest := RewriteLines(lower, lines, changes), RemainingAfter(lower, lines[0], changes);
      NewLineSets(lower, lines[0], changes);
      assert Reads(lower, NewLine(lower, lines[0], changes), property) == Reads(lower, lines[0], property);
      assert Reads(lower, lines[0], property) ==> NewLine(lower, lines[0], changes) == lines[0];
      ReadOther(lower, lines[1..], rest, property);
      hide NewLine, Stale, RemainingAfter, Reads, Lower, ValueOf, Trim;
      assert r.lines[1..] == RewriteLines(lower, lines[1..], rest).lines;
    }
  }

  // ---- the file as a whole ----

  /** The lines of a rewritten file: the rewritten lines, then the missing properties in whatever order. */
  lemma LinesAfterRewrite(lower: Fold, contents: string, changes: Changes, order: seq<string>)
    requires WellFormed(lower, changes) && changes != map[] && AppendOrder(lower, contents, changes, order)
    ensures var r := RewriteLines(lower, Lines(contents), changes);
            && (forall k <- order :: k in changes)
            && Lines(Rewritten(lower, contents, changes, order).0) == Settle(r.lines + Appended(changes, order))
            && Holds(lower, r.lines + Appended(changes, order), changes, map[])
  {
    var lines := Lines(contents);
    var r := RewriteLines(lower, lines, changes);
    RemainingIsPart(lower, lines, changes);
    LinesAreLines(contents);
    RewriteGivesLines(lower, lines, changes);
    AppendedAgain(lower, changes, r.remaining, order);
    LinesOfRewritten(r.lines, Appended(changes, order));
    RewriteAgain(lower, lines, changes);
    HoldsConcat(lower, r.lines, Appended(changes, order), changes, r.remaining, map[]);
  }

  /** Read after write: in the rewritten file every changed property reads back as its trimmed new
      value, whatever its spelling in the question, and every other property reads as before. */
  lemma ReadAfterWrite(lower: Fold, contents: string, changes: Changes, order: seq<string>, property: string)
    requires WellFormed(lower, changes) && AppendOrder(lower, contents, changes, order)
    ensures var k := Lower(lower, property);
            ReadProperty(lower, Split(Rewritten(lower, contents, changes, order).0), property) ==
              if k in changes then Some(Trim(changes[k])) else ReadProperty(lower, Split(contents), property)
  {
    if changes != map[] {
      var lines := Lines(contents);
      var r := RewriteLines(lower, lines, changes);
      var after := Rewritten(lower, contents, changes, order).0;
      LinesAfterRewrite(lower, contents, changes, order);
      var more := Appended(changes, order);
      ReadCleaned(lower, Split(after), property);
      ReadSettled(lower, r.lines + more, property);
      ReadConcat(lower, r.lines, more, property);
      ReadAppended(lower, changes, order, property);
      RemainingIsPart(lower, lines, changes);
      if Lower(lower, property) in changes {
        ReadRewritten(lower, lines, changes, property);
      } else {
        ReadCleaned(lower, Split(contents), property);
        ReadOther(lower, lines, changes, property);
      }
    }
  }

  /** Idempotence: rewriting the rewritten file with the same changes reports no change, appends
      nothing and keeps every line. */
  lemma SecondRewriteChangesNothing(lower: Fold, contents: string, changes: Changes, order: seq<string>)
    requires WellFormed(lower, changes) && AppendOrder(lower, contents, changes, order)
    ensures var after := Rewritten(lower, contents, changes, order).0;
            var again := RewriteLines(lower, Lines(after), changes);
            && AppendOrder(lower, after, changes, []) && !Rewritten(lower, after, changes, []).1
            && (changes != map[] ==> again == Rewrite(Lines(after), map[], false))
  {
    hide WellFormed;
    var after := Rewritten(lower, contents, changes, order).0;
    if changes != map[] {
      LinesAfterRewrite(lower, contents, changes, order);
      SettleIsNoChange(lower, RewriteLines(lower, Lines(contents), changes).lines + Appended(changes, order), changes, map[]);
    } else {
      RemainingIsPart(lower, Lines(after), changes);
      assert forall k :: k in RewriteLines(lower, Lines(after), changes).remaining ==> k in changes;
    }
  }

  // ---- the loops ----

  method ContentLines(contents: string) returns (lines: seq<string>)
    ensures lines == Lines(contents)
  {
    var rawLines := Split(contents);
    lines := [];
    for n := 0 to |rawLines|
      invariant Lines(contents) == lines + Clean(rawLines[n..])
    {
      assert rawLines[n..][1..] == rawLines[n + 1..];
      var line := TrimReturn(rawLines[n]);
      if line == "" {
        continue;
      }
      lines := lines + [line];
    }
  }

  lemma {:induction false} TailSnoc(lines: seq<string>, line: string)
    ensures Tail(lines + [line]) == Tail(lines) + EOL + line
    decreases lines
  {
    if lines == [] {
      assert ([] + [line])[1..] == [];
    } else {
      assert (lines + [line])[0] == lines[0] && (lines + [line])[1..] == lines[1..] + [line];
      TailSnoc(lines[1..], line);
      var a, b := EOL + lines[0], Tail(lines[1..]);
      assert a + (b + EOL + line) == (a + b) + EOL + line;
    }
  }

  lemma {:induction false} AppendedSnoc(changes: Changes, order: seq<string>, key: string)
    requires key in changes && forall k <- order :: k in changes
    ensures forall k <- order + [key] :: k in changes
    ensures Appended(changes, order + [key]) == Appended(changes, order) + [Assignment(key, changes[key])]
    decreases order
  {
    if order != [] {
      assert (order + [key])[1..] == order[1..] + [key];
      AppendedSnoc(changes, order[1..], key);
    }
  }

  lemma MissingSnoc(contents: string, missing: Changes, order: seq<string>, key: string)
    requires key in missing && forall k <- order :: k in missing
    ensures (forall k <- order + [key] :: k in missing)
    ensures contents + Tail(Appended(missing, order + [key])) ==
              contents + Tail(Appended(missing, order)) + EOL + key + "=" + missing[key]
  {
    var line := Assignment(key, missing[key]);
    AppendedSnoc(missing, order, key);
    TailSnoc(Appended(missing, order), line);
    hide Tail, Appended;
    var t := Tail(Appended(missing, order));
    assert contents + (t + EOL + line) == contents + t + EOL + key + "=" + missing[key];
  }

  /** `order` has visited every change that no longer remains, each once. */
  ghost predicate Visited(order: seq<string>, missing: Changes, remaining: Changes) {
    && (forall k :: k in remaining ==> k in missing && remaining[k] == missing[k])
    && (forall k :: k in order <==> k in missing && k !in remaining)
    && (forall i, j :: 0 <= i < j < |order| ==> order[i] != order[j])
  }

  lemma VisitNext(order: seq<string>, missing: Changes, remaining: Changes, key: string)
    requires Visited(order, missing, remaining) && key in remaining
    ensures Visited(order + [key], missing, remaining - {key})
  {
    assert forall i :: 0 <= i < |order| ==> order[i] in order;
  }

  /** Appends the remaining changes in any order. */
  method AppendMissing(contents: string, missing: Changes) returns (newContents: string)
    ensures exists order :: IsOrder(order, missing) && newContents == contents + Tail(Appended(missing, order))
  {
    newContents := contents;
    ghost var order: seq<string> := [];
    var remaining := missing;
    assert contents + "" == contents;
    while remaining != map[]
      invariant Visited(order, missing, remaining)
      invariant newContents == contents + Tail(Appended(missing, order))
      decreases |remaining|
    {
      hide Tail, Appended;
      assert exists k :: k in remaining by {
        assert remaining.Keys != {};
      }
      var key :| key in remaining;
      MissingSnoc(contents, missing, order, key);
      VisitNext(order, missing, remaining, key);
      newContents := newContents + EOL + key + "=" + remaining[key];
      order := order + [key];
      remaining := remaining - {key};
    }
    assert IsOrder(order, missing);
  }

  lemma {:induction false} AppendedPart(part: Changes, changes: Changes, order: seq<string>)
    requires forall k <- part :: k in changes && part[k] == changes[k]
    requires forall k <- order :: k in part
    ensures Appended(part, order) == Appended(changes, order)
    decreases order
  {
    if order != [] {
      AppendedPart(part, changes, order[1..]);
    }
  }

  method RewriteLine(lower: Fold, line: string, remaining: Changes) returns (newLine: string, rest: Changes, changed: bool)
    ensures newLine == NewLine(lower, line, remaining)
    ensures rest == RemainingAfter(lower, line, remaining) && changed == Stale(lower, line, remaining)
  {
    var trim := Trim(line);
    if trim == "" || trim[0] == '#' {
      return line, remaining, false;
    }
    var idx := EqualsAt(line);
    if idx == |line| {
      return line, remaining, false;
    }
    var key := Trim(line[..idx]);
    var value := line[idx + 1..];
    var name := Lower(lower, key);
    newLine, rest, changed := line, remaining, false;
    if name in remaining {
      if value != remaining[name] {
        newLine := key + "=" + remaining[name];
        changed := true;
      }
      rest := remaining - {name};
    }
  }

  method RewriteEach(lower: Fold, lines: seq<string>, changes: Changes)
    returns (newLines: seq<string>, remaining: Changes, changed: bool)
    ensures Rewrite(newLines, remaining, changed) == RewriteLines(lower, lines, changes)
  {
    hide NewLine, RemainingAfter, Stale;
    newLines, remaining, changed := [], changes, false;
    for n := 0 to |lines|
      invariant var t := RewriteLines(lower, lines[n..], remaining);
                RewriteLines(lower, lines, changes) == Rewrite(newLines + t.lines, t.remaining, changed || t.changed)
    {
      var line := lines[n];
      hide RewriteLines;
      RewriteUnfold(lower, lines[n..], remaining);
      assert lines[n..][0] == line && lines[n..][1..] == lines[n + 1..];
      var stale: bool;
      line, remaining, stale := RewriteLine(lower, line, remaining);
      changed := changed || stale;
      newLines := newLines + [line];
    }
  }

  method RewriteContents(lower: Fold, contents: string, changes: Changes)
    returns (newContents: string, changed: bool)
    ensures exists order ::
              AppendOrder(lower, contents, changes, order) && (newContents, changed) == Rewritten(lower, contents, changes, order)
  {
    hide Lines, Join, Tail, RewriteLines;
    RemainingIsPart(lower, Lines(contents), changes);
    if changes == map[] {
      assert forall k :: k in RewriteLines(lower, Lines(contents), changes).remaining ==> k in changes;
      assert AppendOrder(lower, contents, changes, []);
      return contents, false;
    }
    var lines := ContentLines(contents);
    var newLines, remaining;
    newLines, remaining, changed := RewriteEach(lower, lines, changes);
    newContents := AppendMissing(Join(newLines), remaining);
    ghost var order :| IsOrder(order, remaining) && newContents == Join(newLines) + Tail(Appended(remaining, order));
    AppendedPart(remaining, changes, order);
    changed := changed || remaining != map[];
    assert order != [] ==> order[0] in order;
    assert remaining != map[] ==> exists k :: k in remaining by {
      assert remaining == map[] <==> remaining.Keys == {};
    }
    assert AppendOrder(lower, contents, changes, order);
  }

  method ReadServerProperties(lower: Fold, contents: string, property: string) returns (value: Option<string>)
    ensures value == ReadProperty(lower, Split(contents), property)
  {
    var pieces := Split(contents);
    for n := 0 to |pieces|
      invariant ReadProperty(lower, pieces, property) == ReadProperty(lower, pieces[n..], property)
    {
      var line := pieces[n];
      assert pieces[n..][0] == line && pieces[n..][1..] == pieces[n + 1..];
      var idx := EqualsAt(line);
      if idx == |line| {
        continue;
      }
      var key := Trim(line[..idx]);
      if Lower(lower, key) == Lower(lower, property) {
        return Some(Trim(line[idx + 1..]));
      }
    }
    return None;
  }
}
