/**
  `prepare-root.conf` as lines: the writer of the build, and the two stream edits of
  the initramfs that override and read `enabled` in the `[composefs]` section.
 */
module PrepareRootConfig {
  import opened Options

  predicate Space(c: char) {
    c == ' ' || c == '\t' || c == '\n' || c == '\r' || c == '\U{0B}' || c == '\U{0C}'
  }

  function DropSpaces(s: string): string {
    if s != "" && Space(s[0]) then DropSpaces(s[1..]) else s
  }

  const HEADER := "[composefs]"
  const KEY := "enabled"

  /** The address `/^\[composefs\]/`. */
  predicate Opens(line: string) {
    HEADER <= line
  }

  /** The address `/^\[.*\]/`. */
  predicate Closes(line: string) {
    line != "" && line[0] == '[' && ']' in line[1..]
  }

  /** What follows the `=` of a line that matches `^enabled[[:space:]]*=`. */
  function AfterEquals(line: string): Option<string> {
    if KEY <= line then
      var rest := DropSpaces(line[|KEY|..]);
      if rest != "" && rest[0] == '=' then Some(rest[1..]) else None
    else None
  }

  // ----- What the addresses and the pattern match, as text -----

  predicate Blank(s: string) {
    forall i :: 0 <= i < |s| ==> s[i] in [' ', '\t', '\n', '\r', '\U{0B}', '\U{0C}']
  }

  lemma {:induction false} DropsLeadingBlanks(s: string) returns (blanks: string)
    ensures Blank(blanks) && s == blanks + DropSpaces(s)
    ensures DropSpaces(s) != "" ==> DropSpaces(s)[0] !in [' ', '\t', '\n', '\r', '\U{0B}', '\U{0C}']
  {
    blanks := "";
    if s != "" && Space(s[0]) {
      var more := DropsLeadingBlanks(s[1..]);
      blanks := [s[0]] + more;
      assert s == [s[0]] + s[1..];
    }
  }

  lemma {:induction false} BlanksDropped(blanks: string, rest: string)
    requires Blank(blanks) && (rest != "" ==> rest[0] !in [' ', '\t', '\n', '\r', '\U{0B}', '\U{0C}'])
    ensures DropSpaces(blanks + rest) == rest
  {
    if blanks == "" {
      assert blanks + rest == rest;
    } else {
      assert (blanks + rest)[1..] == blanks[1..] + rest;
      BlanksDropped(blanks[1..], rest);
    }
  }

  lemma OpensIff(line: string)
    ensures Opens(line) <==> exists rest :: line == "[composefs]" + rest
  {
    if Opens(line) {
      assert line == "[composefs]" + line[|HEADER|..];
    }
  }

  /** A section ends at a line with a bracket at its start and a closing one somewhere after. */
  lemma ClosesIff(line: string)
    ensures Closes(line) <==> exists name, rest :: line == "[" + name + "]" + rest
  {
    if Closes(line) {
      var i :| 0 <= i < |line[1..]| && line[1..][i] == ']';
      assert line == "[" + line[1..][..i] + "]" + line[1..][i + 1..];
    }
    if name, rest :| line == "[" + name + "]" + rest {
      assert line[1..][|name|] == ']';
    }
  }

  /** The pattern: the word at the start of the line, blanks, an equals sign. */
  lemma PatternIff(line: string, value: string)
    ensures AfterEquals(line) == Some(value) <==>
            exists blanks :: Blank(blanks) && line == "enabled" + blanks + "=" + value
  {
    if AfterEquals(line) == Some(value) {
      var blanks := MatchHasForm(line, value);
    }
    if blanks :| Blank(blanks) && line == "enabled" + blanks + "=" + value {
      FormMatches(line, blanks, value);
    }
  }

  lemma MatchHasForm(line: string, value: string) returns (blanks: string)
    requires AfterEquals(line) == Some(value)
    ensures Blank(blanks) && line == "enabled" + blanks + "=" + value
  {
    var tail := line[|KEY|..];
    blanks := DropsLeadingBlanks(tail);
    var rest := DropSpaces(tail);
    assert rest == [rest[0]] + rest[1..];
    assert line == KEY + tail;
    Regroup(blanks, value);
  }

  lemma Regroup(blanks: string, value: string)
    ensures KEY + (blanks + (['='] + value)) == "enabled" + blanks + "=" + value
  {
  }

  lemma FormMatches(line: string, blanks: string, value: string)
    requires Blank(blanks) && line == "enabled" + blanks + "=" + value
    ensures AfterEquals(line) == Some(value)
  {
    assert line[|KEY|..] == blanks + ("=" + value);
    BlanksDropped(blanks, "=" + value);
    assert ("=" + value)[1..] == value;
  }

  /**
    Whether the line after `line` is in the range, for a line that is (`inside`) or is not in it:
    the closing address is tried from the line after the opening one on, and the line that
    closes a range is not tried as the opening of another.
   */
  predicate InsideNext(inside: bool, line: string) {
    if inside then !Closes(line) else Opens(line)
  }

  /** The substitution of one line of the range; `value` holds nothing the editor treats specially. */
  function Substitute(line: string, value: string): string {
    if AfterEquals(line).Some? then KEY + " = " + value else line
  }

  /** The lines the range holds and the substitution matches. */
  predicate Hit(inside: bool, line: string) {
    (inside || Opens(line)) && AfterEquals(line).Some?
  }

  /** Whether line `i` lies inside a range that an earlier line opened. */
  function InsideAt(lines: seq<string>, i: nat): bool
    requires i <= |lines|
  {
    i > 0 && InsideNext(InsideAt(lines, i - 1), lines[i - 1])
  }

  /**
    A line is inside a section exactly when some line before it opened one, from outside of any,
    and no line in between closed it.
   */
  lemma {:induction false} InsideIff(lines: seq<string>, i: nat)
    requires i <= |lines|
    ensures InsideAt(lines, i) <==> exists j :: OpenedAt(lines, i, j)
  {
    if i > 0 {
      InsideIff(lines, i - 1);
      if InsideAt(lines, i) {
        if InsideAt(lines, i - 1) {
          var j :| OpenedAt(lines, i - 1, j);
          assert OpenedAt(lines, i, j);
        } else {
          assert OpenedAt(lines, i, i - 1);
        }
      }
      if j :| OpenedAt(lines, i, j) {
        if j < i - 1 {
          assert OpenedAt(lines, i - 1, j) && !Closes(lines[i - 1]);
        }
      }
    }
  }

  predicate OpenedAt(lines: seq<string>, i: nat, j: int)
    requires i <= |lines|
  {
    0 <= j < i && Opens(lines[j]) && !InsideAt(lines, j) && forall k :: j < k < i ==> !Closes(lines[k])
  }

  /** The positions rewritten, which are also those read. */
  function Hits(lines: seq<string>, n: nat): seq<nat>
    requires n <= |lines|
  {
    if n == 0 then []
    else Hits(lines, n - 1) + (if Hit(InsideAt(lines, n - 1), lines[n - 1]) then [n - 1] else [])
  }

  lemma {:induction false} HitsAt(lines: seq<string>, n: nat, i: nat)
    requires n <= |lines|
    ensures i in Hits(lines, n) <==> i < n && Hit(InsideAt(lines, i), lines[i])
  {
    if n > 0 {
      HitsAt(lines, n - 1, i);
    }
  }

  function NewLine(lines: seq<string>, value: string, i: nat): string
    requires i < |lines|
  {
    if Hit(InsideAt(lines, i), lines[i]) then KEY + " = " + value else lines[i]
  }

  /** `sed -i`: every hit becomes the override, every other line stays. */
  method Rewrite(lines: seq<string>, value: string) returns (out: seq<string>)
    ensures |out| == |lines|
    ensures forall i :: 0 <= i < |lines| ==> out[i] == NewLine(lines, value, i)
  {
    out := [];
    var inside := false;
    for n := 0 to |lines|
      invariant |out| == n && inside == InsideAt(lines, n)
      invariant forall i :: 0 <= i < n ==> out[i] == NewLine(lines, value, i)
    {
      var line := lines[n];
      var next := if inside || Opens(line) then Substitute(line, value) else line;
      assert next == NewLine(lines, value, n);
      out := out + [next];
      inside := InsideNext(inside, line);
    }
  }

  /** `sed -n …p`: the rest of every hit, one a line. */
  method ReadLines(lines: seq<string>) returns (printed: seq<string>)
    ensures |printed| == |Hits(lines, |lines|)|
    ensures forall k :: 0 <= k < |printed| ==>
              var i := Hits(lines, |lines|)[k];
              i < |lines| && AfterEquals(lines[i]).Some? && printed[k] == DropSpaces(AfterEquals(lines[i]).value)
  {
    printed := [];
    var inside := false;
    for n := 0 to |lines|
      invariant inside == InsideAt(lines, n) && |printed| == |Hits(lines, n)|
      invariant forall k :: 0 <= k < |printed| ==>
                  var i := Hits(lines, n)[k];
                  i < n && AfterEquals(lines[i]).Some? && printed[k] == DropSpaces(AfterEquals(lines[i]).value)
    {
      var line := lines[n];
      if (inside || Opens(line)) && AfterEquals(line).Some? {
        printed := printed + [DropSpaces(AfterEquals(line).value)];
      }
      inside := InsideNext(inside, line);
    }
  }

  // ----- The two edits as functions -----

  function Rewritten(lines: seq<string>, value: string): seq<string> {
    seq(|lines|, i requires 0 <= i < |lines| => NewLine(lines, value, i))
  }

  function Value(line: string): string {
    var rest := AfterEquals(line);
    if rest.Some? then DropSpaces(rest.value) else ""
  }

  /** The printed lines as the shell's command substitution joins them. */
  function Joined(lines: seq<string>, hits: seq<nat>): string {
    if hits == [] then ""
    else
      var i := hits[|hits| - 1];
      var last := if i < |lines| then Value(lines[i]) else "";
      if |hits| == 1 then last else Joined(lines, hits[..|hits| - 1]) + "\n" + last
  }

  /** What is read of a matched line: all after the equals sign and the blanks that follow it. */
  lemma ValueOf(before: string, after: string, value: string)
    requires Blank(before) && Blank(after)
    requires value != "" ==> value[0] !in [' ', '\t', '\n', '\r', '\U{0B}', '\U{0C}']
    ensures Value("enabled" + before + "=" + after + value) == value
  {
    var line := "enabled" + before + "=" + after + value;
    assert line == "enabled" + before + "=" + (after + value);
    FormMatches(line, before, after + value);
    BlanksDropped(after, value);
  }

  function StripNewlines(s: string): string {
    if s != "" && s[|s| - 1] == '\n' then StripNewlines(s[..|s| - 1]) else s
  }

  /** Line after line, in their order, with a line feed between any two. */
  lemma {:induction false} JoinedConcat(lines: seq<string>, a: seq<nat>, b: seq<nat>)
    requires a != [] && b != []
    ensures Joined(lines, a + b) == Joined(lines, a) + "\n" + Joined(lines, b)
  {
    var n := |b| - 1;
    assert (a + b)[..|a + b| - 1] == a + b[..n];
    if n > 0 {
      JoinedConcat(lines, a, b[..n]);
    } else {
      assert a + b[..n] == a;
    }
  }

  lemma JoinedOne(lines: seq<string>, i: nat)
    requires i < |lines|
    ensures Joined(lines, []) == "" && Joined(lines, [i]) == Value(lines[i])
  {
  }

  /** All line feeds at the end go, and nothing else. */
  lemma {:induction false} StripsTheEnd(s: string)
    ensures exists n :: 0 <= n <= |s| && StripNewlines(s) == s[..n] && forall i :: n <= i < |s| ==> s[i] == '\n'
    ensures StripNewlines(s) != "" ==> StripNewlines(s)[|StripNewlines(s)| - 1] != '\n'
  {
    if s != "" && s[|s| - 1] == '\n' {
      var front := s[..|s| - 1];
      StripsTheEnd(front);
      var n :| 0 <= n <= |front| && StripNewlines(front) == front[..n]
               && forall i :: n <= i < |front| ==> front[i] == '\n';
      assert front[..n] == s[..n];
      assert forall i :: n <= i < |s| - 1 ==> s[i] == front[i];
    } else {
      assert s[..|s|] == s;
    }
  }

  /** `enabled`, with the default for an empty reading. */
  function ReadEnabled(lines: seq<string>): string {
    var text := StripNewlines(Joined(lines, Hits(lines, |lines|)));
    if text == "" then "no" else text
  }

  /** The method reads what `ReadEnabled` says. */
  method Read(lines: seq<string>) returns (enabled: string)
    ensures enabled == ReadEnabled(lines)
  {
    var printed := ReadLines(lines);
    var text := "";
    ghost var hits := Hits(lines, |lines|);
    for k := 0 to |printed|
      invariant text == Joined(lines, hits[..k])
    {
      assert hits[..k + 1][..k] == hits[..k];
      text := if k == 0 then printed[k] else text + "\n" + printed[k];
    }
    assert hits[..|printed|] == hits;
    text := StripNewlines(text);
    enabled := if text == "" then "no" else text;
  }

  /** A non-empty value that the replacement text and the reading leave as it is. */
  predicate Plain(value: string) {
    && value != "" && !Space(value[0])
    && '\n' !in value && '/' !in value && '&' !in value && '\\' !in value
  }

  // ----- Reading after rewriting -----

  lemma EqualsLine(value: string)
    ensures AfterEquals(KEY + " = " + value) == Some(" " + value)
    ensures !Opens(KEY + " = " + value) && !Closes(KEY + " = " + value)
  {
    var line := KEY + " = " + value;
    assert line[|KEY|..] == " = " + value;
    assert (" = " + value)[1..] == "= " + value;
    assert DropSpaces(" = " + value) == DropSpaces("= " + value) == "= " + value;
    assert ("= " + value)[1..] == " " + value;
    assert line[0] == 'e';
  }

  lemma ReplacedLine(value: string)
    requires value != "" && !Space(value[0])
    ensures AfterEquals(KEY + " = " + value).Some? && Value(KEY + " = " + value) == value
    ensures !Opens(KEY + " = " + value) && !Closes(KEY + " = " + value)
  {
    EqualsLine(value);
    assert (" " + value)[1..] == value;
    assert DropSpaces(" " + value) == DropSpaces(value);
  }

  lemma HitLine(line: string)
    requires AfterEquals(line).Some?
    ensures !Opens(line) && !Closes(line)
  {
    assert line[0] == 'e';
  }

  /** A rewritten line neither opens nor closes a range, so the ranges stay where they were. */
  lemma {:induction false} SameRanges(lines: seq<string>, value: string, n: nat)
    requires n <= |lines| && value != "" && !Space(value[0])
    ensures InsideAt(Rewritten(lines, value), n) == InsideAt(lines, n)
    ensures Hits(Rewritten(lines, value), n) == Hits(lines, n)
  {
    if n > 0 {
      SameRanges(lines, value, n - 1);
      ReplacedLine(value);
      if Hit(InsideAt(lines, n - 1), lines[n - 1]) {
        HitLine(lines[n - 1]);
      }
    }
  }

  /** `n` copies of the value, joined by newlines. */
  function Copies(value: string, n: nat): string {
    if n == 0 then "" else if n == 1 then value else Copies(value, n - 1) + "\n" + value
  }

  lemma {:induction false} JoinedCopies(lines: seq<string>, hits: seq<nat>, value: string)
    requires forall i :: i in hits ==> i < |lines| && Value(lines[i]) == value
    ensures Joined(lines, hits) == Copies(value, |hits|)
  {
    if hits != [] {
      assert hits[|hits| - 1] in hits;
      var front := hits[..|hits| - 1];
      forall i | i in front ensures i < |lines| && Value(lines[i]) == value {
        assert i in hits;
      }
      JoinedCopies(lines, front, value);
    }
  }

  lemma {:induction false} CopiesLength(value: string, n: nat)
    requires value != "" && '\n' !in value
    ensures StripNewlines(Copies(value, n)) == Copies(value, n)
    ensures n > 1 ==> |Copies(value, n)| > |value|
  {
    if n > 1 {
      CopiesLength(value, n - 1);
      assert Copies(value, n)[|Copies(value, n)| - 1] == value[|value| - 1];
    }
  }

  /** What the reading gives after an override, whatever the file: one copy for every matched line. */
  lemma ReadAfterRewrite(lines: seq<string>, value: string)
    requires Plain(value)
    ensures var n := |Hits(lines, |lines|)|;
            ReadEnabled(Rewritten(lines, value)) == if n == 0 then "no" else Copies(value, n)
  {
    var out := Rewritten(lines, value);
    SameRanges(lines, value, |lines|);
    ReplacedLine(value);
    forall i | i in Hits(lines, |lines|) ensures i < |out| && Value(out[i]) == value {
      HitsAt(lines, |lines|, i);
    }
    JoinedCopies(out, Hits(lines, |lines|), value);
    CopiesLength(value, |Hits(lines, |lines|)|);
  }

  /** The override takes effect exactly when one line is matched, or none is and it asks for the default. */
  lemma OverrideTakesEffect(lines: seq<string>, value: string)
    requires Plain(value)
    ensures var n := |Hits(lines, |lines|)|;
            ReadEnabled(Rewritten(lines, value)) == value <==> n == 1 || (n == 0 && value == "no")
  {
    ReadAfterRewrite(lines, value);
    CopiesLength(value, |Hits(lines, |lines|)|);
  }

  /** The lines outside the matched ones are untouched, and overriding twice is overriding once. */
  lemma RewriteKeepsTheRest(lines: seq<string>, value: string, again: string)
    requires Plain(value) && Plain(again)
    ensures |Rewritten(lines, value)| == |lines|
    ensures forall i :: 0 <= i < |lines| && i !in Hits(lines, |lines|) ==> Rewritten(lines, value)[i] == lines[i]
    ensures Rewritten(Rewritten(lines, value), again) == Rewritten(lines, again)
  {
    forall i | 0 <= i < |lines| && i !in Hits(lines, |lines|) ensures Rewritten(lines, value)[i] == lines[i] {
      HitsAt(lines, |lines|, i);
    }
    forall i | 0 <= i < |lines|
      ensures Rewritten(Rewritten(lines, value), again)[i] == Rewritten(lines, again)[i]
    {
      SameRanges(lines, value, i);
      ReplacedLine(value);
    }
  }

  /** One line opens the section, one line after it and before its end sets the key, and no other line in it does. */
  ghost predicate OneSetting(lines: seq<string>, h: nat, e: nat) {
    && h < e < |lines| && Opens(lines[h]) && AfterEquals(lines[e]).Some?
    && (forall k :: h < k < e ==> !Closes(lines[k]))
    && (forall k :: 0 <= k < |lines| && k != h ==> !Opens(lines[k]))
    && (forall k :: h < k < |lines| && k != e && AfterEquals(lines[k]).Some? ==>
          exists c :: h < c < k && Closes(lines[c]))
  }

  predicate HitOnlyAt(lines: seq<string>, e: nat, i: nat) {
    i < |lines| ==> (Hit(InsideAt(lines, i), lines[i]) <==> i == e)
  }

  lemma OneSettingAt(lines: seq<string>, h: nat, e: nat, i: nat)
    requires OneSetting(lines, h, e)
    ensures HitOnlyAt(lines, e, i)
  {
    if i == e {
      InsideIff(lines, h);
      InsideIff(lines, e);
      assert OpenedAt(lines, e, h);
    } else if i < |lines| && AfterEquals(lines[i]).Some? {
      HitLine(lines[i]);
      InsideIff(lines, i);
      forall j ensures !OpenedAt(lines, i, j) {
      }
    }
  }

  lemma {:induction false} HitsAreOne(lines: seq<string>, e: nat, n: nat)
    requires n <= |lines| && forall i {:trigger HitOnlyAt(lines, e, i)} :: HitOnlyAt(lines, e, i)
    ensures Hits(lines, n) == if e < n then [e] else []
  {
    if n > 0 {
      HitsAreOne(lines, e, n - 1);
      assert HitOnlyAt(lines, e, n - 1);
    }
  }

  lemma RewritesOne(lines: seq<string>, e: nat, value: string)
    requires e < |lines| && forall i {:trigger HitOnlyAt(lines, e, i)} :: HitOnlyAt(lines, e, i)
    ensures Rewritten(lines, value) == lines[e := "enabled = " + value]
  {
    assert KEY + " = " + value == "enabled = " + value;
    forall i | 0 <= i < |lines| ensures Rewritten(lines, value)[i] == lines[e := "enabled = " + value][i] {
      assert HitOnlyAt(lines, e, i);
    }
  }

  /**
    In every file with one section and one setting in it, whatever other sections set and wherever
    they stand, the override is what is then read, and no other line changes.
   */
  lemma OneSettingOverridden(lines: seq<string>, h: nat, e: nat, value: string)
    requires OneSetting(lines, h, e) && Plain(value)
    ensures ReadEnabled(Rewritten(lines, value)) == value
    ensures Rewritten(lines, value) == lines[e := "enabled = " + value]
    ensures ReadEnabled(lines) ==
            if StripNewlines(Value(lines[e])) == "" then "no" else StripNewlines(Value(lines[e]))
  {
    forall i ensures HitOnlyAt(lines, e, i) {
      OneSettingAt(lines, h, e, i);
    }
    HitsAreOne(lines, e, |lines|);
    OverrideTakesEffect(lines, value);
    JoinedOne(lines, e);
    RewritesOne(lines, e, value);
  }

  // ----- The writer of the build -----

  function Printed(transient: string, enabled: string): seq<string> {
    ["[etc]", "transient = " + transient, "", HEADER, KEY + " = " + enabled, "", "[sysroot]", "readonly = false"]
  }

  class ConfigFile {
    var lines: seq<string>

    constructor (lines: seq<string>)
      ensures this.lines == lines
    {
      this.lines := lines;
    }

    /** `write_prepare_root_config` */
    method WritePrepareRootConfig(transient: string, enabled: string)
      modifies this
      ensures lines == Printed(transient, enabled)
      ensures lines == ["[etc]", "transient = " + transient, "", "[composefs]", "enabled = " + enabled, "",
                        "[sysroot]", "readonly = false"]
    {
      lines := ["[etc]", "transient = " + transient, "", HEADER];
      lines := lines + [KEY + " = " + enabled, ""];
      lines := lines + ["[sysroot]", "readonly = false"];
      assert KEY + " = " + enabled == "enabled = " + enabled;
    }

    /** The override from the kernel command line, then the reading. */
    method OverrideAndRead(override: Option<string>) returns (enabled: string)
      modifies this
      ensures lines ==
              if override.Some? && override.value != "" then Rewritten(old(lines), override.value) else old(lines)
      ensures enabled == ReadEnabled(lines)
    {
      if override.Some? && override.value != "" {
        var out := Rewrite(lines, override.value);
        assert out == Rewritten(lines, override.value);
        lines := out;
      }
      enabled := Read(lines);
    }
  }

  lemma PrintedHits(transient: string, enabled: string)
    ensures Hits(Printed(transient, enabled), 8) == [4]
    ensures forall i :: 0 <= i < 8 ==>
              (Hit(InsideAt(Printed(transient, enabled), i), Printed(transient, enabled)[i]) <==> i == 4)
  {
    var p := Printed(transient, enabled);
    assert p[0] == "[etc]" && p[1][0] == 't' && p[7] == "readonly = false" && p[7][0] == 'r';
    assert !Opens(p[0]) && !Opens(p[1]) && !Opens(p[2]) && Opens(p[3]);
    EqualsLine(enabled);
    assert forall i :: 0 <= i < 8 && i != 4 ==> AfterEquals(p[i]).None?;
    assert !InsideAt(p, 1) && !InsideAt(p, 2) && !InsideAt(p, 3) && InsideAt(p, 4);
    assert Hits(p, 0) == [] && Hits(p, 1) == [] && Hits(p, 2) == [];
    assert Hits(p, 3) == [] && Hits(p, 4) == [] && Hits(p, 5) == [4];
    assert Hits(p, 6) == [4] && Hits(p, 7) == [4];
  }

  lemma PrintedRewritten(transient: string, enabled: string, override: string)
    ensures Rewritten(Printed(transient, enabled), override) == Printed(transient, override)
  {
    var p := Printed(transient, enabled);
    PrintedHits(transient, enabled);
    assert Printed(transient, override)[4] == KEY + " = " + override;
    assert forall i :: 0 <= i < 8 && i != 4 ==> Printed(transient, override)[i] == p[i];
  }

  /** The printed file reads back as printed, and as the override once overridden, for every other setting. */
  lemma PrintedRoundTrip(transient: string, enabled: string, override: string)
    requires Plain(enabled) && Plain(override)
    ensures ReadEnabled(Printed(transient, enabled)) == enabled
    ensures Rewritten(Printed(transient, enabled), override) == Printed(transient, override)
    ensures ReadEnabled(Rewritten(Printed(transient, enabled), override)) == override
  {
    PrintedHits(transient, enabled);
    OverrideTakesEffect(Printed(transient, override), enabled);
    PrintedHits(transient, override);
    PrintedRewritten(transient, override, enabled);
    OverrideTakesEffect(Printed(transient, enabled), override);
    PrintedRewritten(transient, enabled, override);
  }
}
