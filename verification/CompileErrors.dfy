/**
 * Which datatype texts are rejected: unknown labels and arguments for a literal, wherever they stand, and
 * that the first item that fails decides.
 */
module CompileErrors {
  import opened Strings
  import opened DatatypeCompiler

  /** From this stack on, the item x at the top level raises the error, whatever follows. */
  ghost predicate Fails(types: set<string>, stack: seq<Entry>, x: string, e: Error) {
    forall rest, n {:trigger FailsAt(types, stack, x, e, rest, n)} :: FailsAt(types, stack, x, e, rest, n)
  }

  ghost predicate FailsAt(types: set<string>, stack: seq<Entry>, x: string, e: Error, rest: string, n: nat) {
    Pending(Scan("", false, 0, stack), x + ("," + rest), n) ==>
      Run(types, Scan("", false, 0, stack), x + ("," + rest), n) == Raise(e)
  }

  /** A label that is no number, no quoted text and no type. */
  predicate IsUnknown(types: set<string>, word: string) {
    word != "" && Strip(word) == word && !IsDecimal(word) && !IsQuoted(word) && word !in types
  }

  lemma UnknownPushed(types: set<string>, stack: seq<Entry>, gap: string, word: string)
    requires IsUnknown(types, word) && IsGap(gap)
    ensures PushLabel(types, stack, gap + Escape(word)) == Raise(UnhandledToken(word))
  {
    UnescapeGap(gap, Escape(word));
    UnescapeGap(gap, word);
    UnescapeEscape(word);
    assert Escape(word) != "" && gap + Escape(word) != "";
    hide IsDecimal, IsQuoted, Escape, Unescape, IsGap;
  }

  /** Blanks and a label, up to a delimiter. */
  lemma LabelCollected(types: set<string>, stack: seq<Entry>, gap: string, word: string, rest: string, n: nat)
    requires IsGap(gap) && rest != "" && Pending(Scan("", false, 0, stack), gap + Escape(word) + rest, n)
    ensures Pending(Scan(gap + Escape(word), false, 0, stack), rest, n)
    ensures Run(types, Scan("", false, 0, stack), gap + Escape(word) + rest, n) ==
            Run(types, Scan(gap + Escape(word), false, 0, stack), rest, n)
  {
    EscapeGap(gap);
    assert gap + Escape(word) + rest == gap + (Escape(word) + rest) && "" + gap == gap;
    RunEscaped(types, Scan("", false, 0, stack), gap, Escape(word) + rest, n);
    RunEscaped(types, Scan(gap, false, 0, stack), word, rest, n);
  }

  lemma RunRaises(types: set<string>, stack: seq<Entry>, cur: string, rest: string, n: nat, e: Error)
    requires PushLabel(types, stack, cur) == Raise(e) && rest != "" && (rest[0] == ',' || rest[0] == '(')
    requires Pending(Scan(cur, false, 0, stack), rest, n)
    ensures Run(types, Scan(cur, false, 0, stack), rest, n) == Raise(e)
  {
    hide PushLabel;
  }

  /** An unknown label is reported by its name, with or without arguments. */
  lemma UnknownFails(types: set<string>, stack: seq<Entry>, gap: string, word: string, inner: string)
    requires IsUnknown(types, word) && IsGap(gap)
    ensures Fails(types, stack, gap + Escape(word), UnhandledToken(word))
    ensures Fails(types, stack, gap + Escape(word) + ("(" + inner + ")"), UnhandledToken(word))
  {
    var text, call, e := gap + Escape(word), "(" + inner + ")", UnhandledToken(word);
    UnknownPushed(types, stack, gap, word);
    hide Run, Pending, PushLabel, Escape, IsUnknown;
    forall rest, n ensures FailsAt(types, stack, text, e, rest, n) {
      if Pending(Scan("", false, 0, stack), text + ("," + rest), n) {
        LabelCollected(types, stack, gap, word, "," + rest, n);
        RunRaises(types, stack, text, "," + rest, n, e);
      }
    }
    forall rest, n ensures FailsAt(types, stack, text + call, e, rest, n) {
      assert text + call + ("," + rest) == text + (call + ("," + rest));
      if Pending(Scan("", false, 0, stack), text + (call + ("," + rest)), n) {
        LabelCollected(types, stack, gap, word, call + ("," + rest), n);
        RunRaises(types, stack, text, call + ("," + rest), n, e);
      }
    }
  }

  lemma CloseRaises(types: set<string>, stack: seq<Entry>, inner: string, rest: string, n: nat)
    requires !TakesArgs(stack) && Pending(Scan(inner, false, 1, stack), ")" + rest, n)
    ensures Run(types, Scan(inner, false, 1, stack), ")" + rest, n) == Raise(FollowsNonFunction)
  {
    hide TakesArgs;
  }

  lemma ArgumentRaises(types: set<string>, stack: seq<Entry>, inner: string, rest: string, n: nat, e: Error)
    requires TakesArgs(stack) && Compile(types, inner) == Raise(e) && Pending(Scan(inner, false, 1, stack), ")" + rest, n)
    ensures Run(types, Scan(inner, false, 1, stack), ")" + rest, n) == Raise(e)
  {
    hide TakesArgs;
  }

  /** A token and its arguments, up to the closing parenthesis. */
  lemma CallCollected(types: set<string>, stack: seq<Entry>, gap: string, t: Tree, pushed: seq<Entry>, inner: string,
                      rest: string, n: nat)
    requires WellFormed(types, t) && IsGap(gap) && Inert(inner)
    requires pushed == stack + if t.Call? then [Fn(t.name), NoArgs] else Encode(t)
    requires Pending(Scan("", false, 0, stack), gap + Escape(Token(t)) + ("(" + (inner + (")" + rest))), n)
    ensures Pending(Scan(inner, false, 1, pushed), ")" + rest, n)
    ensures Run(types, Scan("", false, 0, stack), gap + Escape(Token(t)) + ("(" + (inner + (")" + rest))), n) ==
            Run(types, Scan(inner, false, 1, pushed), ")" + rest, n)
  {
    hide *;
    var text := gap + Escape(Token(t));
    RunToken(types, stack, gap, t, "(" + (inner + (")" + rest)), n);
    RunOpen(types, stack, text, pushed, inner + (")" + rest), n);
    RunInner(types, pushed, inner, rest, n);
  }

  lemma {:induction false} LastIsNoType(stack: seq<Entry>, x: Entry)
    requires Shaped(stack) && !x.Fn?
    ensures !TakesArgs(stack + [x])
    decreases |stack|
  {
    if stack == [] {
    } else {
      var k := if stack[0].Fn? then 2 else 1;
      assert (stack + [x])[k..] == stack[k..] + [x];
      LastIsNoType(stack[k..], x);
      if |stack| > k { assert (stack + [x])[|stack| - 1] == (stack[k..] + [x])[|stack| - k - 1]; }
    }
  }

  lemma LiteralCalledAt(types: set<string>, stack: seq<Entry>, gap: string, t: Tree, inner: string, rest: string, n: nat)
    requires WellFormed(types, t) && !t.Type? && !t.Call? && IsGap(gap) && Inert(inner)
    requires !TakesArgs(stack + Encode(t))
    requires Pending(Scan("", false, 0, stack), gap + Escape(Token(t)) + ("(" + (inner + (")" + rest))), n)
    ensures Run(types, Scan("", false, 0, stack), gap + Escape(Token(t)) + ("(" + (inner + (")" + rest))), n) ==
            Raise(FollowsNonFunction)
  {
    hide *;
    CallCollected(types, stack, gap, t, stack + Encode(t), inner, rest, n);
    CloseRaises(types, stack + Encode(t), inner, rest, n);
  }

  /** Arguments behind a literal are an error. */
  lemma LiteralCalled(types: set<string>, stack: seq<Entry>, gap: string, t: Tree, inner: string)
    requires WellFormed(types, t) && !t.Type? && !t.Call? && IsGap(gap) && Inert(inner) && Shaped(stack)
    ensures Fails(types, stack, gap + Escape(Token(t)) + ("(" + inner + ")"), FollowsNonFunction)
  {
    var text, call := gap + Escape(Token(t)), "(" + inner + ")";
    LastIsNoType(stack, Encode(t)[0]);
    assert Encode(t) == [Encode(t)[0]];
    hide Run, Pending, TakesArgs, Escape, Token, Encode, Inert, WellFormed;
    forall rest, n ensures FailsAt(types, stack, text + call, FollowsNonFunction, rest, n) {
      CallText(text, inner, rest);
      if Pending(Scan("", false, 0, stack), text + call + ("," + rest), n) {
        LiteralCalledAt(types, stack, gap, t, inner, "," + rest, n);
      }
    }
  }

  lemma ArgumentFailsAt(types: set<string>, stack: seq<Entry>, gap: string, t: Tree, inner: string, e: Error,
                        rest: string, n: nat)
    requires WellFormed(types, t) && t.Call? && IsGap(gap) && Inert(inner) && Compile(types, inner) == Raise(e)
    requires Pending(Scan("", false, 0, stack), gap + Escape(Token(t)) + ("(" + (inner + (")" + rest))), n)
    ensures Run(types, Scan("", false, 0, stack), gap + Escape(Token(t)) + ("(" + (inner + (")" + rest))), n) == Raise(e)
  {
    var pushed := stack + [Fn(t.name), NoArgs];
    assert TakesArgs(pushed);
    hide *;
    CallCollected(types, stack, gap, t, pushed, inner, rest, n);
    ArgumentRaises(types, pushed, inner, rest, n, e);
  }

  /** An error in the arguments of a type is the error of the whole text. */
  lemma ArgumentFails(types: set<string>, stack: seq<Entry>, gap: string, t: Tree, inner: string, e: Error)
    requires WellFormed(types, t) && t.Call? && IsGap(gap) && Inert(inner) && Compile(types, inner) == Raise(e)
    ensures Fails(types, stack, gap + Escape(Token(t)) + ("(" + inner + ")"), e)
  {
    var text, call := gap + Escape(Token(t)), "(" + inner + ")";
    hide Run, Pending, TakesArgs, Escape, Token, Inert, WellFormed, Compile;
    forall rest, n ensures FailsAt(types, stack, text + call, e, rest, n) {
      CallText(text, inner, rest);
      if Pending(Scan("", false, 0, stack), text + call + ("," + rest), n) {
        ArgumentFailsAt(types, stack, gap, t, inner, e, "," + rest, n);
      }
    }
  }

  /** The first item that fails decides: what is before it is well formed, what comes after it does not matter. */
  lemma FirstFailureDecides(types: set<string>, ts: seq<Tree>, gap: string, x: string, more: string, e: Error)
    requires (forall t :: t in ts ==> WellFormed(types, t)) && IsGap(gap) && Fails(types, EncodeAll(ts), x, e)
    ensures Compile(types, (if ts == [] then "" else PrintAll(ts, gap) + ",") + x) == Raise(e)
    ensures Compile(types, (if ts == [] then "" else PrintAll(ts, gap) + ",") + x + "," + more) == Raise(e)
  {
    FailureDecides(types, ts, gap, x, "", e);
    FailureDecides(types, ts, gap, x, more + ",", e);
    var front := if ts == [] then "" else PrintAll(ts, gap) + ",";
    hide *;
    CommaLast(front, x, more);
    CompileIsRun(types, front + x, front + (x + ("," + "")));
    CompileIsRun(types, front + x + "," + more, front + (x + ("," + (more + ","))));
  }

  lemma CommaLast(front: string, x: string, more: string)
    ensures front + x + "," == front + (x + ("," + ""))
    ensures front + x + "," + more + "," == front + (x + ("," + (more + ",")))
  {
  }

  lemma CompileIsRun(types: set<string>, code: string, input: string)
    requires input == code + ","
    ensures Pending(Scan("", false, 0, []), input, |code|)
    ensures Compile(types, code) == Run(types, Scan("", false, 0, []), input, |code|)
  {
  }

  lemma FailureDecides(types: set<string>, ts: seq<Tree>, gap: string, x: string, rest: string, e: Error)
    requires (forall t :: t in ts ==> WellFormed(types, t)) && IsGap(gap) && Fails(types, EncodeAll(ts), x, e)
    ensures var code := (if ts == [] then "" else PrintAll(ts, gap) + ",") + (x + ("," + rest));
            forall n :: Pending(Scan("", false, 0, []), code, n) ==> Run(types, Scan("", false, 0, []), code, n) == Raise(e)
  {
    var tail := x + ("," + rest);
    hide Run, Pending, PrintAll, WellFormed;
    if ts == [] {
      assert "" + tail == tail;
      forall n | Pending(Scan("", false, 0, []), tail, n) ensures Run(types, Scan("", false, 0, []), tail, n) == Raise(e) {
        assert FailsAt(types, [], x, e, rest, n);
      }
    } else {
      var printed, code := PrintAll(ts, gap), PrintAll(ts, gap) + "," + tail;
      PushesAll(types, ts, gap);
      assert code == printed + ("," + tail) && [] + EncodeAll(ts) == EncodeAll(ts);
      forall n | Pending(Scan("", false, 0, []), code, n) ensures Run(types, Scan("", false, 0, []), code, n) == Raise(e) {
        assert PushesAt(types, printed, EncodeAll(ts), [], tail, n);
        assert FailsAt(types, EncodeAll(ts), x, e, rest, n);
      }
    }
  }
}
