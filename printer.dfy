/**
  A model of avo's generated-code warning formatter: the `printer.Config`
  value, its default constructor and the one-line warning it derives,
  "Code generated by <identity>. DO NOT EDIT.".

  The identity is "command: " followed by the command-line arguments joined
  with single spaces when arguments are present; otherwise it is the
  configured generator name.
 */
module Printer {

  datatype Option<+T> = None | Some(value: T)

  /** Generation metadata: the invoking command line and the generator name. */
  datatype Config = Config(argv: seq<string>, name: string)

  /** Name of the default configuration. */
  const DefaultName: string := "avo"

  /** Fixed text around the identity in every warning. */
  const WarningPrefix: string := "Code generated by "
  const WarningSuffix: string := ". DO NOT EDIT."

  /** Text put before the joined arguments when the identity is a command line. */
  const CommandPrefix: string := "command: "

  /** Separator between joined arguments. */
  const ArgSeparator: char := ' '

  // ---------------------------------------------------------------------------
  // Joining and splitting argument lists
  // ---------------------------------------------------------------------------

  /** Total number of characters in all the parts. */
  function TotalLength(parts: seq<string>): nat
  {
    if parts == [] then 0 else |parts[0]| + TotalLength(parts[1..])
  }

  /** The parts in order with `sep` between each two neighbours (strings.Join). */
  function Join(parts: seq<string>, sep: string): (r: string)
    ensures parts == [] ==> r == []
    ensures |parts| == 1 ==> r == parts[0]
    ensures parts != [] ==> |r| == TotalLength(parts) + (|parts| - 1) * |sep|
  {
    if parts == [] then []
    else if |parts| == 1 then parts[0]
    else parts[0] + sep + Join(parts[1..], sep)
  }

  /**
    Joining two non-empty lists is joining each and putting one separator
    between them. With the one-part case this fixes every join: the parts in
    order, whatever characters they hold, one separator between neighbours.
   */
  lemma {:induction false} JoinAppend(p: seq<string>, q: seq<string>, sep: string)
    requires p != [] && q != []
    ensures Join(p + q, sep) == Join(p, sep) + sep + Join(q, sep)
  {
    assert (p + q)[0] == p[0];
    if |p| == 1 {
      assert (p + q)[1..] == q;
    } else {
      assert (p + q)[1..] == p[1..] + q;
      JoinAppend(p[1..], q, sep);
    }
  }

  /** Position of the first occurrence of `c` in `s`. */
  function IndexOf(s: string, c: char): (i: nat)
    requires c in s
    ensures i < |s| && s[i] == c && c !in s[..i]
  {
    if s[0] == c then 0 else 1 + IndexOf(s[1..], c)
  }

  /** The pieces of `s` between occurrences of `c` (strings.Split with a one-character separator). */
  function Split(s: string, c: char): (r: seq<string>)
    ensures |r| >= 1
    ensures forall k :: 0 <= k < |r| ==> c !in r[k]
    decreases |s|
  {
    if c !in s then [s]
    else
      var i := IndexOf(s, c);
      [s[..i]] + Split(s[i + 1..], c)
  }

  /** Splitting a join on a separator that no part contains gives the parts back. */
  lemma {:induction false} SplitJoin(parts: seq<string>, c: char)
    requires |parts| >= 1
    requires forall k :: 0 <= k < |parts| ==> c !in parts[k]
    ensures Split(Join(parts, [c]), c) == parts
  {
    if |parts| > 1 {
      var p, rest := parts[0], parts[1..];
      var s := Join(parts, [c]);
      assert s == p + [c] + Join(rest, [c]);
      assert s[|p|] == c;
      var i := IndexOf(s, c);
      assert forall j :: 0 <= j < |p| ==> s[j] == p[j];
      assert forall j :: 0 <= j < i ==> s[..i][j] == s[j];
      assert i == |p|;
      assert s[..i] == p;
      assert s[i + 1..] == Join(rest, [c]);
      SplitJoin(rest, c);
    }
  }

  // ---------------------------------------------------------------------------
  // Config
  // ---------------------------------------------------------------------------

  /** NewDefaultConfig: no command line, named "avo". */
  function NewDefaultConfig(): (c: Config)
    ensures HasIdentity(c) && GeneratedBy(c) == DefaultName
  {
    Config([], DefaultName)
  }

  /** A configuration the warning is defined for: a command line or a name. */
  predicate HasIdentity(c: Config)
  {
    c.argv != [] || c.name != ""
  }

  /** The identity of the generator named in the warning. */
  function GeneratedBy(c: Config): (id: string)
    requires HasIdentity(c)
    ensures id != ""
  {
    if c.argv != [] then CommandPrefix + Join(c.argv, [ArgSeparator])
    else c.name
  }

  /** The warning line, without comment markers and without a newline. */
  function GeneratedWarning(c: Config): (w: string)
    requires HasIdentity(c)
    ensures |w| > |WarningPrefix| + |WarningSuffix|
    ensures w[..|WarningPrefix|] == WarningPrefix
    ensures w[|w| - |WarningSuffix|..] == WarningSuffix
  {
    WarningPrefix + GeneratedBy(c) + WarningSuffix
  }

  // ---------------------------------------------------------------------------
  // Reading a warning back
  // ---------------------------------------------------------------------------

  /** The identity inside a line of the warning's form, if the line has that form. */
  function ParseWarning(s: string): Option<string>
  {
    if |s| >= |WarningPrefix| + |WarningSuffix|
       && s[..|WarningPrefix|] == WarningPrefix
       && s[|s| - |WarningSuffix|..] == WarningSuffix
    then Some(s[|WarningPrefix|..|s| - |WarningSuffix|])
    else None
  }

  /** A line is accepted by ParseWarning exactly when it is the template around what it returns. */
  lemma ParseWarningSound(s: string, id: string)
    ensures ParseWarning(s) == Some(id) <==> s == WarningPrefix + id + WarningSuffix
  {
  }

  /** The identity can be read back from every warning. */
  lemma WarningRoundTrip(c: Config)
    requires HasIdentity(c)
    ensures ParseWarning(GeneratedWarning(c)) == Some(GeneratedBy(c))
  {
  }

  /** Two configurations give the same warning exactly when they have the same identity. */
  lemma WarningDeterminesIdentity(c: Config, d: Config)
    requires HasIdentity(c) && HasIdentity(d)
    ensures GeneratedWarning(c) == GeneratedWarning(d) <==> GeneratedBy(c) == GeneratedBy(d)
  {
    WarningRoundTrip(c);
    WarningRoundTrip(d);
  }

  // ---------------------------------------------------------------------------
  // Precedence and the identity
  // ---------------------------------------------------------------------------

  /** With arguments present, the name plays no part in the warning. */
  lemma ArgvTakesPrecedence(c: Config, name: string)
    requires c.argv != []
    ensures GeneratedWarning(c.(name := name)) == GeneratedWarning(c)
  {
  }

  /** Without arguments, the name is the identity, verbatim. */
  lemma NameIsIdentity(c: Config)
    requires c.argv == [] && c.name != ""
    ensures GeneratedWarning(c) == WarningPrefix + c.name + WarningSuffix
  {
  }

  /**
    With arguments present, the identity is "command: " followed by text that
    splits on spaces into the arguments, in order, when no argument holds a space.
   */
  lemma ArgvIdentity(c: Config)
    requires c.argv != []
    requires forall k :: 0 <= k < |c.argv| ==> ArgSeparator !in c.argv[k]
    ensures var id := GeneratedBy(c);
      |id| >= |CommandPrefix| && id[..|CommandPrefix|] == CommandPrefix
      && Split(id[|CommandPrefix|..], ArgSeparator) == c.argv
  {
    var id := GeneratedBy(c);
    assert id[|CommandPrefix|..] == Join(c.argv, [ArgSeparator]);
    SplitJoin(c.argv, ArgSeparator);
  }

  /** A single argument is the identity after "command: ", whatever it holds. */
  lemma ArgvSingleIdentity(arg: string, name: string)
    ensures GeneratedBy(Config([arg], name)) == CommandPrefix + arg
  {
  }

  /**
    The identity of a longer command line is the identity of its first
    arguments, one space, and the rest joined with spaces, whether or not an
    argument holds a space itself.
   */
  lemma ArgvIdentityAppend(p: seq<string>, q: seq<string>, name: string)
    requires p != [] && q != []
    ensures GeneratedBy(Config(p + q, name))
         == GeneratedBy(Config(p, name)) + [ArgSeparator] + Join(q, [ArgSeparator])
  {
    JoinAppend(p, q, [ArgSeparator]);
  }

  // ---------------------------------------------------------------------------
  // The three outputs of the example, and the precedence case without a name
  // ---------------------------------------------------------------------------

  lemma DefaultWarning()
    ensures GeneratedWarning(NewDefaultConfig()) == "Code generated by avo. DO NOT EDIT."
  {
  }

  lemma MildredWarning()
    ensures GeneratedWarning(Config([], "mildred")) == "Code generated by mildred. DO NOT EDIT."
  {
  }

  /** The example's arguments joined with single spaces. */
  lemma EchoJoin()
    ensures Join(["echo", "hello", "world"], [ArgSeparator]) == "echo hello world"
  {
  }

  /** The example's identity, whatever the name. */
  lemma EchoIdentity(name: string)
    ensures GeneratedBy(Config(["echo", "hello", "world"], name)) == "command: echo hello world"
  {
    EchoJoin();
    assert CommandPrefix + "echo hello world" == "command: echo hello world";
  }

  lemma EchoWarning()
    ensures GeneratedWarning(Config(["echo", "hello", "world"], "mildred"))
         == "Code generated by command: echo hello world. DO NOT EDIT."
    ensures GeneratedWarning(Config(["echo", "hello", "world"], ""))
         == "Code generated by command: echo hello world. DO NOT EDIT."
  {
    var id := "command: echo hello world";
    EchoIdentity("mildred");
    EchoIdentity("");
    assert WarningPrefix + id + WarningSuffix
        == "Code generated by command: echo hello world. DO NOT EDIT.";
  }
}
