/**
 The enrollment command that the dashboard shows, against the words that a POSIX shell reads in it: sections
 2.2.1, 2.2.2, 2.3, 2.9.1 and 2.10.2 of the POSIX.1-2017 Shell Command Language. Text with any character that
 could start an expansion, an operator, a comment or a pattern is rejected, as is text with a NUL.
 */
module Shell {
  import opened Common

  const NUL: char := '\0'

  // ---- Words ----

  /** A character of a word, and whether quoting took its special meaning away. */
  datatype Mark = Mark(c: char, quoted: bool)

  type Word = seq<Mark>

  predicate IsLetter(c: char) {
    'a' <= c <= 'z' || 'A' <= c <= 'Z'
  }

  predicate IsNameChar(c: char) {
    IsLetter(c) || '0' <= c <= '9' || c == '_'
  }

  predicate IsOrdinary(c: char) {
    IsNameChar(c) || c == '=' || c == '/' || c == '-' || c == '.' || c == ',' || c == ':' || c == '+' || c == '@' || c == '%'
  }

  predicate IsBlank(c: char) {
    c == ' ' || c == '\t'
  }

  function Extended(pending: Option<Word>, mark: Mark): Option<Word> {
    Some((if pending.None? then [] else pending.value) + [mark])
  }

  function Opened(pending: Option<Word>): Option<Word> {
    Some(if pending.None? then [] else pending.value)
  }

  function Closed(pending: Option<Word>): seq<Word> {
    if pending.None? then [] else [pending.value]
  }

  function Prepend(words: seq<Word>, rest: Option<seq<Word>>): Option<seq<Word>> {
    if rest.None? then None else Some(words + rest.value)
  }

  /** The words of the text, from inside or outside single quotes, after the word begun so far. */
  function Scan(text: string, pending: Option<Word>, inQuotes: bool): Option<seq<Word>>
    decreases |text|
  {
    if text == "" then if inQuotes then None else Some(Closed(pending))
    else
      var c, rest := text[0], text[1..];
      if c == NUL then None
      else if inQuotes then
        if c == '\'' then Scan(rest, pending, false) else Scan(rest, Extended(pending, Mark(c, true)), true)
      else if c == '\'' then Scan(rest, Opened(pending), true)
      else if c == '\\' then
        if rest == "" || rest[0] == NUL then None
        else if rest[0] == '\n' then Scan(rest[1..], pending, false)
        else Scan(rest[1..], Extended(pending, Mark(rest[0], true)), false)
      else if IsBlank(c) then Prepend(Closed(pending), Scan(rest, None, false))
      else if IsOrdinary(c) then Scan(rest, Extended(pending, Mark(c, false)), false)
      else None
  }

  function Words(text: string): Option<seq<Word>> {
    Scan(text, None, false)
  }

  function Marked(s: string, quoted: bool): Word {
    seq(|s|, i requires 0 <= i < |s| => Mark(s[i], quoted))
  }

  /** What is left of a word when its quoting is removed. */
  function TextOf(word: Word): string {
    seq(|word|, i requires 0 <= i < |word| => word[i].c)
  }

  // ---- Quoting ----

  function ReplaceQuotes(value: string): string {
    if value == "" then ""
    else (if value[0] == '\'' then "'\\''" else [value[0]]) + ReplaceQuotes(value[1..])
  }

  function ShellQuote(value: string): string {
    "'" + ReplaceQuotes(value) + "'"
  }

  predicate NulFree(s: string) {
    NUL !in s
  }

  /** From inside the quotes, the shell reads the value and comes out at the closing quote. */
  lemma {:induction false} QuotedIsRead(value: string, rest: string, word: Word)
    ensures Scan(ReplaceQuotes(value) + "'" + rest, Some(word), true)
         == if NulFree(value) then Scan(rest, Some(word + Marked(value, true)), false) else None
    decreases |value|
  {
    var text := ReplaceQuotes(value) + "'" + rest;
    if value == "" {
      assert text[1..] == rest && word + Marked(value, true) == word;
    } else {
      var c, tail := value[0], value[1..];
      var next, more := word + [Mark(c, true)], ReplaceQuotes(tail) + "'" + rest;
      assert next + Marked(tail, true) == word + Marked(value, true);
      assert NulFree(value) <==> c != NUL && NulFree(tail) by {
        assert value == [c] + tail;
      }
      if c == '\'' {
        ReopensQuotes(more, word);
        assert text == "'\\''" + more;
      } else {
        assert text[0] == c && text[1..] == more;
      }
      QuotedIsRead(tail, rest, next);
    }
  }

  /** A quote inside the value closes the quotes, comes escaped, and opens them again. */
  lemma ReopensQuotes(more: string, word: Word)
    ensures Scan("'\\''" + more, Some(word), true) == Scan(more, Some(word + [Mark('\'', true)]), true)
  {
    var text := "'\\''" + more;
    assert text[1..] == "\\''" + more;
    assert ("\\''" + more)[1..] == "''" + more;
    assert ("''" + more)[1..] == "'" + more;
    assert ("'" + more)[1..] == more;
    assert Scan(text, Some(word), true) == Scan("\\''" + more, Some(word), false);
    assert Scan("\\''" + more, Some(word), false) == Scan("'" + more, Some(word + [Mark('\'', true)]), false);
  }

  /** A quoted value in the middle of a line, after what there is of its word. */
  lemma QuoteIsRead(value: string, rest: string, pending: Option<Word>)
    ensures Scan(ShellQuote(value) + rest, pending, false)
         == if NulFree(value) then Scan(rest, Some(Opened(pending).value + Marked(value, true)), false) else None
  {
    assert (ShellQuote(value) + rest)[1..] == ReplaceQuotes(value) + "'" + rest;
    QuotedIsRead(value, rest, Opened(pending).value);
  }

  lemma TextOfMarked(s: string, quoted: bool)
    ensures TextOf(Marked(s, quoted)) == s
  {
  }

  /** The shell reads a quoted value back as exactly one word, the value; or rejects it, if it holds a NUL. */
  lemma QuoteRoundTrip(value: string)
    ensures Words(ShellQuote(value)) == if NulFree(value) then Some([Marked(value, true)]) else None
    ensures TextOf(Marked(value, true)) == value
  {
    QuoteIsRead(value, "", None);
    assert ShellQuote(value) + "" == ShellQuote(value);
    assert [] + Marked(value, true) == Marked(value, true);
    TextOfMarked(value, true);
  }

  /** Two values that quote alike are one value. */
  lemma QuoteIsInjective(a: string, b: string)
    requires NulFree(a) && NulFree(b) && ShellQuote(a) == ShellQuote(b)
    ensures a == b
  {
    QuoteRoundTrip(a);
    QuoteRoundTrip(b);
    TextOfMarked(a, true);
    TextOfMarked(b, true);
  }

  // ---- Simple commands ----

  predicate IsName(s: string) {
    s != "" && !('0' <= s[0] <= '9') && forall i :: 0 <= i < |s| ==> IsNameChar(s[i])
  }

  function FirstEquals(word: Word): nat
    ensures FirstEquals(word) <= |word|
  {
    if word == [] || word[0] == Mark('=', false) then 0 else 1 + FirstEquals(word[1..])
  }

  datatype Assignment = Assignment(name: string, value: string)

  /** A word is an assignment if an unquoted name stands before its first unquoted equals sign. */
  function AsAssignment(word: Word): Option<Assignment> {
    var at := FirstEquals(word);
    var name := TextOf(word[..at]);
    if at < |word| && IsName(name) && word[..at] == Marked(name, false)
    then Some(Assignment(name, TextOf(word[at + 1..])))
    else None
  }

  datatype Command = Command(assignments: seq<Assignment>, arguments: seq<string>)

  function Texts(words: seq<Word>): seq<string> {
    seq(|words|, i requires 0 <= i < |words| => TextOf(words[i]))
  }

  /** Assignments come before the command word; after it, every word is an argument. */
  function AsCommand(words: seq<Word>): Command {
    if words == [] || AsAssignment(words[0]).None? then Command([], Texts(words))
    else
      var rest := AsCommand(words[1..]);
      Command([AsAssignment(words[0]).value] + rest.assignments, rest.arguments)
  }

  function ParseCommand(text: string): Option<Command> {
    var words := Words(text);
    if words.None? then None else Some(AsCommand(words.value))
  }

  // ---- The enrollment command ----

  const AGENT := "/usr/local/bin/probe-agent"

  function EnrollmentCommand(node: string, endpoint: string, enrollEndpoint: string, code: string): string {
    "PROBE_NODE_ID=" + ShellQuote(node) + " PROBE_ENDPOINT=" + ShellQuote(endpoint)
    + " PROBE_ENROLL_ENDPOINT=" + ShellQuote(enrollEndpoint) + " PROBE_ENROLL_CODE=" + ShellQuote(code)
    + " " + AGENT
  }

  predicate AllOrdinary(s: string) {
    forall i :: 0 <= i < |s| ==> IsOrdinary(s[i])
  }

  lemma {:induction false} PlainIsRead(plain: string, rest: string, pending: Option<Word>)
    requires AllOrdinary(plain) && plain != ""
    ensures Scan(plain + rest, pending, false) == Scan(rest, Some(Opened(pending).value + Marked(plain, false)), false)
    decreases |plain|
  {
    var text, tail, next := plain + rest, plain[1..], Extended(pending, Mark(plain[0], false));
    assert text[0] == plain[0] && text[1..] == tail + rest;
    assert Scan(text, pending, false) == Scan(tail + rest, next, false);
    assert next.value + Marked(tail, false) == Opened(pending).value + Marked(plain, false);
    if tail == "" {
      assert tail + rest == rest && next.value + Marked(tail, false) == next.value;
    } else {
      PlainIsRead(tail, rest, next);
    }
  }

  /** The word of a name, an equals sign and a quoted value. */
  function AssignmentWord(name: string, value: string): Word {
    Marked(name + "=", false) + Marked(value, true)
  }

  lemma {:induction false} EqualsFollowsName(name: string, rest: Word)
    requires forall i :: 0 <= i < |name| ==> name[i] != '='
    ensures FirstEquals(Marked(name + "=", false) + rest) == |name|
    decreases |name|
  {
    var word := Marked(name + "=", false) + rest;
    if name != "" {
      assert word[1..] == Marked(name[1..] + "=", false) + rest;
      EqualsFollowsName(name[1..], rest);
    }
  }

  lemma AssignmentIsRead(name: string, value: string)
    requires IsName(name)
    ensures AsAssignment(AssignmentWord(name, value)) == Some(Assignment(name, value))
  {
    var word := AssignmentWord(name, value);
    EqualsFollowsName(name, Marked(value, true));
    assert word[..|name|] == Marked(name, false);
    assert word[|name| + 1..] == Marked(value, true);
    TextOfMarked(name, false);
    TextOfMarked(value, true);
  }

  /** One assignment of the line, up to the blank before the next word. */
  lemma AssignmentIsScanned(name: string, value: string, rest: string)
    requires IsName(name)
    ensures Scan(name + "=" + ShellQuote(value) + " " + rest, None, false)
         == if NulFree(value) then Prepend([AssignmentWord(name, value)], Scan(rest, None, false)) else None
  {
    var plain := name + "=";
    assert name + "=" + ShellQuote(value) + " " + rest == plain + (ShellQuote(value) + (" " + rest));
    PlainIsRead(plain, ShellQuote(value) + (" " + rest), None);
    assert [] + Marked(plain, false) == Marked(plain, false);
    QuoteIsRead(value, " " + rest, Some(Marked(plain, false)));
    assert (" " + rest)[1..] == rest;
  }

  lemma AgentIsCommandWord()
    ensures ParseCommand(AGENT) == Some(Command([], [AGENT]))
  {
    assert AllOrdinary(AGENT);
    assert '=' !in AGENT;
    PlainIsCommandWord(AGENT);
  }

  lemma PlainIsCommandWord(plain: string)
    requires AllOrdinary(plain) && plain != "" && '=' !in plain
    ensures Words(plain) == Some([Marked(plain, false)])
    ensures ParseCommand(plain) == Some(Command([], [plain]))
  {
    PlainIsRead(plain, "", None);
    assert plain + "" == plain && [] + Marked(plain, false) == Marked(plain, false);
    TextOfMarked(plain, false);
    NoEquals(Marked(plain, false));
    assert Texts([Marked(plain, false)]) == [plain];
  }

  lemma {:induction false} NoEquals(word: Word)
    requires forall i :: 0 <= i < |word| ==> word[i].c != '='
    ensures FirstEquals(word) == |word|
  {
    if word != [] {
      NoEquals(word[1..]);
    }
  }

  /**
   For all values: the shell reads the enrollment command as four assignments, of exactly these values, and one
   command word; and it can be read at all exactly if no value holds a NUL.
   */
  lemma EnrollmentCommandIsRead(node: string, endpoint: string, enrollEndpoint: string, code: string)
    ensures ParseCommand(EnrollmentCommand(node, endpoint, enrollEndpoint, code))
         == if NulFree(node) && NulFree(endpoint) && NulFree(enrollEndpoint) && NulFree(code)
            then Some(Command([Assignment("PROBE_NODE_ID", node), Assignment("PROBE_ENDPOINT", endpoint),
                               Assignment("PROBE_ENROLL_ENDPOINT", enrollEndpoint),
                               Assignment("PROBE_ENROLL_CODE", code)], ["/usr/local/bin/probe-agent"]))
            else None
  {
    CommandIsLines(node, endpoint, enrollEndpoint, code);
    NamesAreNames();
    AgentIsCommandWord();
    FourAssignments("PROBE_NODE_ID", node, "PROBE_ENDPOINT", endpoint, "PROBE_ENROLL_ENDPOINT", enrollEndpoint,
                    "PROBE_ENROLL_CODE", code, AGENT, AGENT);
  }

  /** A name, an equals sign and a quoted value, and the rest of the line after a blank. */
  function Line(name: string, value: string, rest: string): string {
    name + "=" + ShellQuote(value) + " " + rest
  }

  lemma NamesAreNames()
    ensures IsName("PROBE_NODE_ID") && IsName("PROBE_ENDPOINT")
    ensures IsName("PROBE_ENROLL_ENDPOINT") && IsName("PROBE_ENROLL_CODE")
  {
  }

  lemma FourAssignments(name1: string, value1: string, name2: string, value2: string, name3: string, value3: string,
                        name4: string, value4: string, rest: string, argument: string)
    requires IsName(name1) && IsName(name2) && IsName(name3) && IsName(name4)
    requires ParseCommand(rest) == Some(Command([], [argument]))
    ensures ParseCommand(Line(name1, value1, Line(name2, value2, Line(name3, value3, Line(name4, value4, rest)))))
         == if NulFree(value1) && NulFree(value2) && NulFree(value3) && NulFree(value4)
            then Some(Command([Assignment(name1, value1), Assignment(name2, value2), Assignment(name3, value3),
                               Assignment(name4, value4)], [argument]))
            else None
  {
    AssignmentAndRest(name4, value4, rest);
    AssignmentAndRest(name3, value3, Line(name4, value4, rest));
    AssignmentAndRest(name2, value2, Line(name3, value3, Line(name4, value4, rest)));
    AssignmentAndRest(name1, value1, Line(name2, value2, Line(name3, value3, Line(name4, value4, rest))));
    var a1, a2 := Assignment(name1, value1), Assignment(name2, value2);
    var a3, a4 := Assignment(name3, value3), Assignment(name4, value4);
    assert [a1] + ([a2] + ([a3] + ([a4] + []))) == [a1, a2, a3, a4];
  }

  lemma AssignmentAndRest(name: string, value: string, rest: string)
    requires IsName(name)
    ensures
      ParseCommand(Line(name, value, rest))
        == match ParseCommand(rest)
           case Some(command) =>
             if NulFree(value)
             then Some(command.(assignments := [Assignment(name, value)] + command.assignments))
             else None
           case None => None
  {
    AssignmentIsScanned(name, value, rest);
    AssignmentIsRead(name, value);
    var words := Words(rest);
    if NulFree(value) && words.Some? {
      var all := [AssignmentWord(name, value)] + words.value;
      assert all[1..] == words.value;
    }
  }

  /** Moving a blank and a name from the end of what is written so far to the beginning of the rest. */
  lemma Regroup(before: string, spacedName: string, name: string, value: string, rest: string)
    requires spacedName == " " + name + "="
    ensures before + spacedName + ShellQuote(value) + (" " + rest) == before + (" " + Line(name, value, rest))
  {
    var quoted := ShellQuote(value);
    assert before + spacedName + quoted + (" " + rest) == before + (spacedName + quoted + (" " + rest));
    assert spacedName + quoted + (" " + rest) == " " + (name + "=" + quoted + (" " + rest));
    assert name + "=" + quoted + (" " + rest) == Line(name, value, rest);
  }

  lemma CommandIsLines(node: string, endpoint: string, enrollEndpoint: string, code: string)
    ensures EnrollmentCommand(node, endpoint, enrollEndpoint, code)
         == Line("PROBE_NODE_ID", node, Line("PROBE_ENDPOINT", endpoint,
              Line("PROBE_ENROLL_ENDPOINT", enrollEndpoint, Line("PROBE_ENROLL_CODE", code, AGENT))))
  {
    var head1 := "PROBE_NODE_ID=" + ShellQuote(node);
    var head2 := head1 + " PROBE_ENDPOINT=" + ShellQuote(endpoint);
    var head3 := head2 + " PROBE_ENROLL_ENDPOINT=" + ShellQuote(enrollEndpoint);
    var line4 := Line("PROBE_ENROLL_CODE", code, AGENT);
    var line3 := Line("PROBE_ENROLL_ENDPOINT", enrollEndpoint, line4);
    SpacedNames();
    assert EnrollmentCommand(node, endpoint, enrollEndpoint, code)
        == head3 + " PROBE_ENROLL_CODE=" + ShellQuote(code) + (" " + AGENT) by {
      Associates(head3 + " PROBE_ENROLL_CODE=" + ShellQuote(code), " ", AGENT);
    }
    Regroup(head3, " PROBE_ENROLL_CODE=", "PROBE_ENROLL_CODE", code, AGENT);
    Regroup(head2, " PROBE_ENROLL_ENDPOINT=", "PROBE_ENROLL_ENDPOINT", enrollEndpoint, line4);
    Regroup(head1, " PROBE_ENDPOINT=", "PROBE_ENDPOINT", endpoint, line3);
    var line2 := Line("PROBE_ENDPOINT", endpoint, line3);
    Associates("PROBE_NODE_ID=" + ShellQuote(node), " ", line2);
  }

  lemma Associates(a: string, b: string, c: string)
    ensures a + b + c == a + (b + c)
  {
  }

  lemma SpacedNames()
    ensures "PROBE_NODE_ID" + "=" == "PROBE_NODE_ID="
    ensures " " + "PROBE_ENDPOINT" + "=" == " PROBE_ENDPOINT="
    ensures " " + "PROBE_ENROLL_ENDPOINT" + "=" == " PROBE_ENROLL_ENDPOINT="
    ensures " " + "PROBE_ENROLL_CODE" + "=" == " PROBE_ENROLL_CODE="
  {
  }
}
