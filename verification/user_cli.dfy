/** The command-line helpers of `userCli.ts`: the answer post-processing of
    `ask`, the line collection of `askMultiline`, and the text `print`
    writes.

    The terminal is not modelled: an answer is a given string and the lines
    the user types are a given sequence, each without its line break. */
module UserCli {
  import opened Wrappers
  import opened Text

  /** `PromptOpts`: both fields may be left `undefined`. */
  datatype PromptOpts = PromptOpts(trim: Option<bool>, toLowerCase: Option<bool>)

  /** The default parameter `{ trim: true, toLowerCase: false }`, used only
      when no options object is passed at all. */
  const DefaultOpts: PromptOpts := PromptOpts(Some(true), Some(false))

  /** The terminator `askMultiline` uses when none is given. */
  const DefaultTerminator: string := "END"

  predicate Trimmed(s: string) {
    |s| == 0 || (!IsSpace(s[0]) && !IsSpace(s[|s| - 1]))
  }

  predicate NoUpper(s: string) {
    forall i :: 0 <= i < |s| ==> !('A' <= s[i] <= 'Z')
  }

  /** Trimming is skipped only for `trim: false`; an absent `trim` trims. */
  predicate TrimsWith(opts: PromptOpts) {
    opts.trim != Some(false)
  }

  /** Lowercasing happens only for a truthy `toLowerCase`. */
  predicate LowersWith(opts: PromptOpts) {
    opts.toLowerCase == Some(true)
  }

  /** The two optional steps `ask` and `askMultiline` apply to an answer:
      trim, then lowercase. */
  function PostProcess(s: string, opts: Option<PromptOpts>): (r: string)
    ensures TrimsWith(opts.GetOr(DefaultOpts)) ==> Trimmed(r)
    ensures LowersWith(opts.GetOr(DefaultOpts)) ==> NoUpper(r)
    ensures !TrimsWith(opts.GetOr(DefaultOpts)) && !LowersWith(opts.GetOr(DefaultOpts)) ==> r == s
    ensures opts.None? ==> r == Trim(s)
    ensures var o := opts.GetOr(DefaultOpts);
      r == (if LowersWith(o) then ToLower(if TrimsWith(o) then Trim(s) else s)
            else if TrimsWith(o) then Trim(s) else s)
  {
    var o := opts.GetOr(DefaultOpts);
    var t := if TrimsWith(o) then Trim(s) else s;
    var r := if LowersWith(o) then ToLower(t) else t;
    if TrimsWith(o) && LowersWith(o) then LowerKeepsTrimmed(t); r else r
  }

  /** Lowercasing only touches ASCII capitals, none of which is white space,
      so it keeps a trimmed string trimmed. */
  lemma LowerKeepsTrimmed(s: string)
    requires Trimmed(s)
    ensures Trimmed(ToLower(s))
  {
  }

  /** Post-processing an already post-processed answer changes nothing. */
  lemma PostProcessIdempotent(s: string, opts: Option<PromptOpts>)
    ensures PostProcess(PostProcess(s, opts), opts) == PostProcess(s, opts)
  {
    var o := opts.GetOr(DefaultOpts);
    var t := if TrimsWith(o) then Trim(s) else s;
    if TrimsWith(o) {
      TrimIdempotent(s);
      if LowersWith(o) {
        LowerKeepsTrimmed(t);
        TrimOfTrimmed(ToLower(t));
        ToLowerIdempotent(t);
      }
    } else if LowersWith(o) {
      ToLowerIdempotent(s);
    }
  }

  /** `ask(message, opts)` once the user has typed `answer`. */
  function Ask(answer: string, opts: Option<PromptOpts>): (r: string)
    ensures opts.None? ==> r == Trim(answer)
    ensures opts == Some(PromptOpts(None, None)) ==> r == Trim(answer)
    ensures opts.Some? && opts.value.trim == Some(false) && !LowersWith(opts.value) ==> r == answer
    ensures opts.Some? && TrimsWith(opts.value) && !LowersWith(opts.value) ==> r == Trim(answer)
    ensures opts.Some? && !TrimsWith(opts.value) && LowersWith(opts.value) ==> r == ToLower(answer)
    ensures opts.Some? && TrimsWith(opts.value) && LowersWith(opts.value) ==> r == ToLower(Trim(answer))
  {
    PostProcess(answer, opts)
  }

  /** The test `askMultiline` applies to each line typed: does it trim to
      the terminator? */
  function IsTerminatorLine(terminator: string): string -> bool {
    line => Trim(line) == terminator
  }

  /** Some typed line passes the terminator test. */
  predicate HasTerminator(typed: seq<string>, stop: string -> bool) {
    exists i :: 0 <= i < |typed| && stop(typed[i])
  }

  /** The lines `askMultiline` keeps from the lines typed: a prefix of
      them, present exactly when some typed line is the terminator; `None`
      otherwise, since the loop is then still waiting for input and the call
      never returns. */
  function CollectLines(typed: seq<string>, stop: string -> bool): (r: Option<seq<string>>)
    ensures r.Some? <==> HasTerminator(typed, stop)
    ensures r.Some? ==> |r.value| < |typed| && r.value == typed[..|r.value|]
  {
    if |typed| == 0 then None
    else if stop(typed[0]) then Some([])
    else
      match CollectLines(typed[1..], stop)
      case None =>
        assert !HasTerminator(typed, stop) by {
          forall i | 0 < i < |typed|
            ensures !stop(typed[i])
          {
            assert typed[i] == typed[1..][i - 1];
          }
        }
        None
      case Some(rest) =>
        var r := [typed[0]] + rest;
        assert r == typed[..|r|] by {
          assert typed[1..][..|rest|] == rest;
        }
        Some(r)
  }

  /** The kept lines stop at the first terminator line: the line right
      after them is the terminator, and none of them is. */
  lemma {:induction false} CollectLinesStopsAtFirstTerminator(typed: seq<string>, stop: string -> bool)
    requires CollectLines(typed, stop).Some?
    ensures var lines := CollectLines(typed, stop).value;
      stop(typed[|lines|]) && !HasTerminator(lines, stop)
  {
    if !stop(typed[0]) {
      var rest := CollectLines(typed[1..], stop).value;
      CollectLinesStopsAtFirstTerminator(typed[1..], stop);
      var r := CollectLines(typed, stop).value;
      assert r == [typed[0]] + rest;
      assert typed[|r|] == typed[1..][|rest|];
      forall i | 0 < i < |r|
        ensures !stop(r[i])
      {
        assert r[i] == rest[i - 1];
      }
    }
  }

  /** What `askMultiline` produces: the prompt it writes, and the answer it
      resolves to (`None` while it is still waiting for the terminator). */
  datatype Multiline = Multiline(prompt: string, answer: Option<string>)

  function MultilinePrompt(message: string, terminator: string): string {
    Print(message + " (Type '" + terminator + "' on a new line to finish):", [])
  }

  /** `askMultiline(message, terminator, opts)` over the lines typed. */
  function AskMultiline(message: string, terminator: Option<string>, opts: Option<PromptOpts>,
                        typed: seq<string>): (r: Multiline)
    ensures r.prompt == MultilinePrompt(message, terminator.GetOr(DefaultTerminator))
    ensures r.answer.Some? <==> CollectLines(typed, IsTerminatorLine(terminator.GetOr(DefaultTerminator))).Some?
  {
    var term := terminator.GetOr(DefaultTerminator);
    Multiline(MultilinePrompt(message, term),
              match CollectLines(typed, IsTerminatorLine(term))
              case None => None
              case Some(lines) => Some(PostProcess(Join(lines, "\n"), opts)))
  }

  /** With trimming and lowercasing both switched off, the answer splits at
      its line breaks into exactly the lines kept. */
  lemma MultilineKeepsLines(message: string, terminator: Option<string>, typed: seq<string>, lines: seq<string>)
    requires forall i :: 0 <= i < |typed| ==> '\n' !in typed[i]
    requires CollectLines(typed, IsTerminatorLine(terminator.GetOr(DefaultTerminator))) == Some(lines)
    requires |lines| > 0
    ensures var r := AskMultiline(message, terminator, Some(PromptOpts(Some(false), Some(false))), typed);
            r.answer.Some? && Split(r.answer.value, '\n') == lines
  {
    SplitJoin(lines, '\n');
    var opts := PromptOpts(Some(false), Some(false));
    AnswerOfCollected(message, terminator, Some(opts), typed, lines);
  }

  lemma AnswerOfCollected(message: string, terminator: Option<string>, opts: Option<PromptOpts>,
                          typed: seq<string>, lines: seq<string>)
    requires CollectLines(typed, IsTerminatorLine(terminator.GetOr(DefaultTerminator))) == Some(lines)
    ensures AskMultiline(message, terminator, opts, typed).answer == Some(PostProcess(Join(lines, "\n"), opts))
  {
  }

  /** Whatever follows the first terminator line is ignored: typing `pre`,
      then a line that trims to the terminator, then anything, keeps
      exactly `pre`. */
  lemma {:induction false} CollectLinesExactly(pre: seq<string>, t: string, post: seq<string>, stop: string -> bool)
    requires !HasTerminator(pre, stop)
    requires stop(t)
    ensures CollectLines(pre + [t] + post, stop) == Some(pre)
  {
    var typed := pre + [t] + post;
    if |pre| == 0 {
      assert typed[0] == t;
    } else {
      assert !stop(pre[0]);
      assert !HasTerminator(pre[1..], stop) by {
        forall i | 0 <= i < |pre| - 1
          ensures !stop(pre[1..][i])
        {
          assert pre[1..][i] == pre[i + 1];
        }
      }
      CollectLinesExactly(pre[1..], t, post, stop);
      assert typed[1..] == pre[1..] + [t] + post;
      assert typed[0] == pre[0];
      assert [pre[0]] + pre[1..] == pre;
    }
  }

  /** An argument to `print`: an object is written as its JSON text, any
      other value as its string conversion; both renderings are given. */
  datatype Arg = ObjectArg(json: string) | PrimitiveArg(text: string)

  function Render(a: Arg): string {
    match a
    case ObjectArg(j) => j
    case PrimitiveArg(t) => t
  }

  function RenderAll(args: seq<Arg>): (r: seq<string>)
    ensures |r| == |args|
    ensures forall i :: 0 <= i < |args| ==> r[i] == Render(args[i])
  {
    if |args| == 0 then [] else [Render(args[0])] + RenderAll(args[1..])
  }

  /** The text `print(message, ...args)` writes: the message, then the
      rendered arguments each after one space, then a line break. */
  function Print(message: string, args: seq<Arg>): (r: string)
    ensures |r| > |message|
    ensures r[..|message|] == message
    ensures r[|r| - 1] == '\n'
    ensures |args| == 0 ==> r == message + "\n"
    ensures |args| > 0 ==> r[|message|] == ' '
  {
    if |args| > 0 then message + " " + Join(RenderAll(args), " ") + "\n"
    else message + "\n"
  }

  /** One argument is written after exactly one space, whatever its kind. */
  lemma PrintOneArgument(message: string, a: Arg)
    ensures Print(message, [a]) == message + " " + Render(a) + "\n"
  {
  }

  /** The arguments as `print` lays them out, each after one space. */
  function Spaced(args: seq<Arg>): string {
    if |args| == 0 then "" else " " + Render(args[0]) + Spaced(args[1..])
  }

  /** `print` writes the message, then every rendered argument in order
      after a single space, then a line break, whatever the number of
      arguments. */
  lemma {:induction false} PrintIsSpacedArguments(message: string, args: seq<Arg>)
    ensures Print(message, args) == message + Spaced(args) + "\n"
  {
    if |args| > 0 {
      SpacedJoin(args);
    }
  }

  lemma {:induction false} SpacedJoin(args: seq<Arg>)
    requires |args| > 0
    ensures " " + Join(RenderAll(args), " ") == Spaced(args)
  {
    if |args| > 1 {
      SpacedJoin(args[1..]);
      assert RenderAll(args)[1..] == RenderAll(args[1..]);
    } else {
      assert Spaced(args[1..]) == "";
    }
  }

  /** One more argument is written after one more space, just before the
      line break; nothing written before it changes. */
  lemma {:induction false} PrintOneMore(message: string, args: seq<Arg>, a: Arg)
    ensures var p := Print(message, args);
      Print(message, args + [a]) == p[..|p| - 1] + " " + Render(a) + "\n"
  {
    PrintIsSpacedArguments(message, args);
    PrintIsSpacedArguments(message, args + [a]);
    SpacedSnoc(args, a);
    var p := Print(message, args);
    assert p[..|p| - 1] == message + Spaced(args);
  }

  lemma {:induction false} SpacedSnoc(args: seq<Arg>, a: Arg)
    ensures Spaced(args + [a]) == Spaced(args) + " " + Render(a)
  {
    if |args| > 0 {
      assert (args + [a])[1..] == args[1..] + [a];
      SpacedSnoc(args[1..], a);
    } else {
      assert (args + [a])[1..] == [];
    }
  }
}
