/** The upload panel's state machine and its reader of the OCR server's NDJSON stream: the
    stream is cut into lines at `\r?\n`, the incomplete last line stays in a buffer, blank
    lines are skipped, a line holding several JSON objects glued as `}{` is split between
    them, and each message updates the displayed text; a part that fails to parse or
    carries an error is dropped and the next one is processed. */
module UploadSection {
  import opened Wrappers
  import opened Text
  import opened Regex
  import AnalysisTypes

  // ---------------------------------------------------------------- line framing

  /** `"\r?\n"` cuts after one optional '\r': a piece that a newline ends loses one
      trailing '\r'. */
  function DropCr(line: string): string {
    if line != [] && line[|line| - 1] == '\r' then line[..|line| - 1] else line
  }

  /** DropCr on every piece. */
  function DropCrs(pieces: seq<string>): (r: seq<string>)
    ensures |r| == |pieces|
  {
    if pieces == [] then [] else DropCrs(pieces[..|pieces| - 1]) + [DropCr(pieces[|pieces| - 1])]
  }

  lemma {:induction false} DropCrsAppend(a: seq<string>, b: seq<string>)
    ensures DropCrs(a + b) == DropCrs(a) + DropCrs(b)
    decreases |b|
  {
    if b == [] {
      assert a + b == a;
    } else {
      assert (a + b)[..|a + b| - 1] == a + b[..|b| - 1];
      DropCrsAppend(a, b[..|b| - 1]);
    }
  }

  /** The pieces of buffer.split(/\r?\n/). */
  function SplitLines(s: string): (r: seq<string>)
    ensures r != []
  {
    var pieces := SplitOn(s, "\n");
    DropCrs(pieces[..|pieces| - 1]) + [pieces[|pieces| - 1]]
  }

  /** The lines of a stream that a newline has ended: all the pieces but the last. */
  function CompleteLines(s: string): seq<string> {
    var pieces := SplitOn(s, "\n");
    DropCrs(pieces[..|pieces| - 1])
  }

  /** The text after the last newline: what stays in the buffer. */
  function Tail(s: string): string {
    var pieces := SplitOn(s, "\n");
    pieces[|pieces| - 1]
  }

  /** The lines split off and the retained buffer. */
  lemma SplitLinesParts(s: string)
    ensures var r := SplitLines(s); r[..|r| - 1] == CompleteLines(s) && r[|r| - 1] == Tail(s)
  {
  }

  /** The chunks the reader delivers, joined in order. */
  function Concat(chunks: seq<string>): string {
    if chunks == [] then "" else Concat(chunks[..|chunks| - 1]) + chunks[|chunks| - 1]
  }

  /** The pieces of a + b from those of a and of b: the last piece of a and the first of b
      become one. */
  function Glue(pa: seq<string>, pb: seq<string>): seq<string>
    requires pa != [] && pb != []
  {
    pa[..|pa| - 1] + [pa[|pa| - 1] + pb[0]] + pb[1..]
  }

  lemma GlueCons(x: string, t: seq<string>, pb: seq<string>)
    requires t != [] && pb != []
    ensures Glue([x] + t, pb) == [x] + Glue(t, pb)
  {
    assert ([x] + t)[..|t|] == [x] + t[..|t| - 1];
  }

  lemma GlueHead(ch: char, t: seq<string>, pb: seq<string>)
    requires t != [] && pb != []
    ensures Glue([[ch] + t[0]] + t[1..], pb) == [[ch] + Glue(t, pb)[0]] + Glue(t, pb)[1..]
  {
    var g := Glue(t, pb);
    if |t| == 1 {
      assert g == [t[0] + pb[0]] + pb[1..];
      assert [[ch] + t[0]] + t[1..] == [[ch] + t[0]];
      assert Glue([[ch] + t[0]], pb) == [([ch] + t[0]) + pb[0]] + pb[1..];
      assert ([ch] + t[0]) + pb[0] == [ch] + (t[0] + pb[0]);
    } else {
      GlueCons(t[0], t[1..], pb);
      assert [t[0]] + t[1..] == t;
      GlueCons([ch] + t[0], t[1..], pb);
    }
  }

  /** Splitting a concatenation on one character: the last piece of the first text and the
      first piece of the second are glued together. */
  lemma {:induction false} SplitOnAppend(a: string, b: string, c: char)
    ensures SplitOn(a + b, [c]) == Glue(SplitOn(a, [c]), SplitOn(b, [c]))
    decreases |a|
  {
    var pb := SplitOn(b, [c]);
    if a == [] {
      assert a + b == b;
      assert SplitOn(a, [c]) == [[]];
      assert [] + pb[0] == pb[0];
      assert Glue([[]], pb) == [pb[0]] + pb[1..];
    } else {
      var t := SplitOn(a[1..], [c]);
      SplitOnAppend(a[1..], b, c);
      assert (a + b)[1..] == a[1..] + b;
      assert (a + b)[0] == a[0];
      if a[0] == c {
        assert SplitOn(a, [c]) == [""] + t by {
          assert [c] <= a;
        }
        assert SplitOn(a + b, [c]) == [""] + SplitOn(a[1..] + b, [c]) by {
          assert [c] <= a + b;
        }
        GlueCons("", t, pb);
      } else {
        assert SplitOn(a, [c]) == [[a[0]] + t[0]] + t[1..] by {
          assert !([c] <= a);
        }
        var u := SplitOn(a[1..] + b, [c]);
        assert SplitOn(a + b, [c]) == [[a[0]] + u[0]] + u[1..] by {
          assert !([c] <= a + b);
        }
        GlueHead(a[0], t, pb);
      }
    }
  }

  /** A split on one character has one piece more than the text has such characters. */
  lemma {:induction false} PieceCount(s: string, c: char)
    ensures |SplitOn(s, [c])| == multiset(s)[c] + 1
    decreases |s|
  {
    if s != [] {
      PieceCount(s[1..], c);
      assert s == [s[0]] + s[1..];
      var t := SplitOn(s[1..], [c]);
      if [c] <= s {
        assert SplitOn(s, [c]) == [""] + t;
      } else {
        assert SplitOn(s, [c]) == [[s[0]] + t[0]] + t[1..];
      }
    }
  }

  /** A text without newline is one piece. */
  lemma OnePiece(s: string)
    requires '\n' !in s
    ensures SplitOn(s, "\n") == [s]
  {
    PieceCount(s, '\n');
    JoinSplitOn(s, "\n");
  }

  /** Gluing only touches the last piece of the first sequence. */
  lemma GlueLast(pa: seq<string>, pb: seq<string>)
    requires pa != [] && pb != []
    ensures Glue(pa, pb) == pa[..|pa| - 1] + Glue([pa[|pa| - 1]], pb)
  {
    assert [pa[|pa| - 1]][..0] == [];
  }

  /** The pieces of all + chunk: the finished pieces of `all`, then those of its last
      piece followed by the chunk. */
  lemma PiecesStep(all: string, chunk: string)
    ensures var pa := SplitOn(all, "\n");
      SplitOn(all + chunk, "\n") == pa[..|pa| - 1] + SplitOn(Tail(all) + chunk, "\n")
  {
    var pa := SplitOn(all, "\n");
    var pb := SplitOn(chunk, "\n");
    SplitOnAppend(all, chunk, '\n');
    TailNoNewline(all);
    OnePiece(Tail(all));
    SplitOnAppend(Tail(all), chunk, '\n');
    GlueLast(pa, pb);
  }

  /** Reading one more chunk: the lines it completes are those of the retained buffer
      followed by the chunk. */
  lemma CompleteLinesStep(all: string, chunk: string)
    ensures CompleteLines(all + chunk) == CompleteLines(all) + CompleteLines(Tail(all) + chunk)
  {
    var pa := SplitOn(all, "\n");
    var rest := SplitOn(Tail(all) + chunk, "\n");
    PiecesStep(all, chunk);
    var whole := pa[..|pa| - 1] + rest;
    assert whole[..|whole| - 1] == pa[..|pa| - 1] + rest[..|rest| - 1];
    DropCrsAppend(pa[..|pa| - 1], rest[..|rest| - 1]);
  }

  /** The new buffer is what follows the last newline of the retained buffer and the chunk. */
  lemma TailStep(all: string, chunk: string)
    ensures Tail(all + chunk) == Tail(Tail(all) + chunk)
  {
    PiecesStep(all, chunk);
  }

  /** The buffer never holds a newline. */
  lemma TailNoNewline(s: string)
    ensures '\n' !in Tail(s)
  {
    SplitOnCharPieces(s, '\n');
    assert Tail(s) in SplitOn(s, "\n");
  }

  /** Text added after the last newline completes no line: a final line the stream does not
      end with a newline is never parsed. */
  lemma CompleteLinesUnterminated(s: string, more: string)
    requires '\n' !in more
    ensures CompleteLines(s + more) == CompleteLines(s)
  {
    var pa := SplitOn(s, "\n");
    OnePiece(more);
    SplitOnAppend(s, more, '\n');
    var whole := SplitOn(s + more, "\n");
    assert whole == pa[..|pa| - 1] + [pa[|pa| - 1] + more];
    assert whole[..|whole| - 1] == pa[..|pa| - 1];
  }

  /** A newline completes the line in the buffer. */
  lemma CompleteLinesTerminated(s: string)
    ensures CompleteLines(s + "\n") == CompleteLines(s) + [DropCr(Tail(s))]
  {
    var pa := SplitOn(s, "\n");
    SplitOnAppend(s, "\n", '\n');
    assert SplitOn("\n", "\n") == ["", ""] by {
      assert "\n"[1..] == "";
      assert SplitOn("", "\n") == [""];
    }
    var whole := SplitOn(s + "\n", "\n");
    GlueLast(pa, ["", ""]);
    assert Glue([Tail(s)], ["", ""]) == [Tail(s), ""] by {
      assert Tail(s) + "" == Tail(s);
    }
    assert whole == pa[..|pa| - 1] + [Tail(s), ""];
    assert whole[..|whole| - 1] == pa[..|pa| - 1] + [Tail(s)];
    DropCrsAppend(pa[..|pa| - 1], [Tail(s)]);
    assert DropCrs([Tail(s)]) == [DropCr(Tail(s))] by {
      assert [Tail(s)][..0] == [];
    }
  }

  // ---------------------------------------------------------------- fixConcatenated

  /** The match of `}{` at position j. */
  function JointMatch(s: string, j: nat): (n: nat)
    ensures n == 0 || j + n <= |s|
  {
    if j + 2 <= |s| && s[j..j + 2] == "}{" then 2 else 0
  }

  /** The number of '}{' pairs from position i on, as a global replace finds them. */
  function Joints(s: string, i: nat): nat
    requires i <= |s|
    decreases |s| - i
  {
    if i == |s| then 0
    else if JointMatch(s, i) > 0 then 1 + Joints(s, i + 2)
    else Joints(s, i + 1)
  }

  /** fixConcatenated: a line holding '}{' is split between each '}' and '{'. */
  function FixConcatenated(line: string): seq<string> {
    if Contains(line, "}{") then SplitOn(SubFrom(line, 0, JointMatch, "}\n{"), "\n") else [line]
  }

  /** The replacement adds one newline per pair to a text that had none. */
  lemma {:induction false} NewlinesAdded(s: string, i: nat)
    requires i <= |s| && '\n' !in s
    ensures multiset(SubFrom(s, i, JointMatch, "}\n{"))['\n'] == Joints(s, i)
    decreases |s| - i
  {
    if i < |s| {
      if JointMatch(s, i) > 0 {
        NewlinesAdded(s, i + 2);
        assert SubFrom(s, i, JointMatch, "}\n{") == "}\n{" + SubFrom(s, i + 2, JointMatch, "}\n{");
        assert multiset("}\n{")['\n'] == 1;
      } else {
        NewlinesAdded(s, i + 1);
        assert SubFrom(s, i, JointMatch, "}\n{") == [s[i]] + SubFrom(s, i + 1, JointMatch, "}\n{");
        assert s[i] in s;
      }
    }
  }

  /** No pair at all: one pair-free scan finds none. */
  lemma {:induction false} NoJoints(s: string, i: nat)
    requires i <= |s| && !Contains(s[i..], "}{")
    ensures Joints(s, i) == 0
    decreases |s| - i
  {
    if i < |s| {
      assert s[i..][1..] == s[i + 1..];
      if i + 2 <= |s| {
        assert s[i..i + 2] == s[i..][..2];
      }
      NoJoints(s, i + 1);
    }
  }

  /** Consecutive parts meet at a pair: each part but the last ends with '}' and each part
      but the first starts with '{'. */
  predicate SplitAtJoints(parts: seq<string>) {
    && (forall k :: 0 <= k < |parts| - 1 ==> parts[k] != [] && parts[k][|parts[k]| - 1] == '}')
    && (forall k :: 0 < k < |parts| ==> parts[k] != [] && parts[k][0] == '{')
  }

  lemma {:induction false} ConcatCons(x: string, t: seq<string>)
    ensures Concat([x] + t) == x + Concat(t)
    decreases |t|
  {
    if t == [] {
      assert [x] + t == [x];
      assert [x][..0] == [];
    } else {
      assert ([x] + t)[..|t|] == [x] + t[..|t| - 1];
      ConcatCons(x, t[..|t| - 1]);
    }
  }

  /** A character other than the newline joins the first piece of the split. */
  lemma SplitOnOther(c: char, x: string)
    requires c != '\n'
    ensures var u := SplitOn(x, "\n"); SplitOn([c] + x, "\n") == [[c] + u[0]] + u[1..]
  {
    var s := [c] + x;
    assert s[1..] == x;
    assert s[..1] != "\n";
  }

  /** Prepending one character to the first part keeps the concatenation and the joints. */
  lemma PrependToFirst(c: char, u: seq<string>, tail: string)
    requires u != [] && Concat(u) == tail && SplitAtJoints(u)
    ensures var r := [[c] + u[0]] + u[1..]; Concat(r) == [c] + tail && SplitAtJoints(r) && r[0][0] == c
  {
    var r := [[c] + u[0]] + u[1..];
    ConcatCons([c] + u[0], u[1..]);
    ConcatCons(u[0], u[1..]);
    assert [u[0]] + u[1..] == u;
    if |u| > 1 {
      assert r[0][|r[0]| - 1] == u[0][|u[0]| - 1];
    }
  }

  /** A character other than the newline in front of a text joins the first part. */
  lemma PrependStep(c: char, rest: string, tail: string)
    requires c != '\n' && Concat(SplitOn(rest, "\n")) == tail && SplitAtJoints(SplitOn(rest, "\n"))
    ensures var parts := SplitOn([c] + rest, "\n"); Concat(parts) == [c] + tail && SplitAtJoints(parts) && parts[0][0] == c
  {
    SplitOnOther(c, rest);
    PrependToFirst(c, SplitOn(rest, "\n"), tail);
  }

  /** A leading newline ends an empty first piece. */
  lemma SplitOnNewline(x: string)
    ensures SplitOn("\n" + x, "\n") == [""] + SplitOn(x, "\n")
  {
    assert ("\n" + x)[1..] == x;
    assert ("\n" + x)[..1] == "\n";
  }

  /** A '}\n{' in front of a text splits off a part "}". */
  lemma JointParts(rest: string)
    ensures SplitOn("}\n{" + rest, "\n") == ["}"] + SplitOn("{" + rest, "\n")
  {
    var x := "\n" + ("{" + rest);
    SplitOnNewline("{" + rest);
    SplitOnOther('}', x);
    assert "}\n{" + rest == ['}'] + x;
    assert ['}'] + "" == "}";
  }

  /** A '}\n{' in front of a text splits into a part "}" and a '{' joined to the first part of
      the text. */
  lemma SplitJoint(rest: string, tail: string)
    requires Concat(SplitOn(rest, "\n")) == tail && SplitAtJoints(SplitOn(rest, "\n"))
    ensures var parts := ["}"] + SplitOn("{" + rest, "\n"); Concat(parts) == "}{" + tail && SplitAtJoints(parts)
  {
    var v := SplitOn("{" + rest, "\n");
    PrependStep('{', rest, tail);
    ConcatCons("}", v);
    assert "}" + ("{" + tail) == "}{" + tail;
    CloseBefore(v);
  }

  /** A part "}" in front of parts whose first starts with '{' keeps the joints. */
  lemma CloseBefore(v: seq<string>)
    requires v != [] && v[0] != [] && v[0][0] == '{' && SplitAtJoints(v)
    ensures SplitAtJoints(["}"] + v)
  {
    var parts := ["}"] + v;
    assert forall k :: 0 < k < |parts| ==> parts[k] == v[k - 1];
  }

  /** The replacement of '}{' by '}\n{' and the split on newlines give back the scanned text
      when the parts are concatenated, and split it only between a '}' and a '{'. */
  lemma {:induction false} SplitSubstitution(s: string, i: nat)
    requires i <= |s| && '\n' !in s
    ensures var parts := SplitOn(SubFrom(s, i, JointMatch, "}\n{"), "\n");
      Concat(parts) == s[i..] && SplitAtJoints(parts)
    decreases |s| - i
  {
    if i == |s| {
      assert SplitOn("", "\n") == [""];
      assert Concat([""]) == Concat([]) + "";
    } else if JointMatch(s, i) > 0 {
      SplitSubstitution(s, i + 2);
      JointStep(s, i);
    } else {
      SplitSubstitution(s, i + 1);
      assert s[i] in s;
      OtherStep(s, i);
    }
  }

  /** SplitSubstitution at a pair, from its statement two characters on. */
  lemma JointStep(s: string, i: nat)
    requires i < |s| && JointMatch(s, i) > 0
    requires var parts := SplitOn(SubFrom(s, i + 2, JointMatch, "}\n{"), "\n");
      Concat(parts) == s[i + 2..] && SplitAtJoints(parts)
    ensures var parts := SplitOn(SubFrom(s, i, JointMatch, "}\n{"), "\n");
      Concat(parts) == s[i..] && SplitAtJoints(parts)
  {
    var rest := SubFrom(s, i + 2, JointMatch, "}\n{");
    SplitJoint(rest, s[i + 2..]);
    JointParts(rest);
    assert SubFrom(s, i, JointMatch, "}\n{") == "}\n{" + rest;
    assert s[i..] == "}{" + s[i + 2..] by { assert s[i..i + 2] == "}{"; }
  }

  /** SplitSubstitution at any other character, from its statement one character on. */
  lemma OtherStep(s: string, i: nat)
    requires i < |s| && JointMatch(s, i) == 0 && s[i] != '\n'
    requires var parts := SplitOn(SubFrom(s, i + 1, JointMatch, "}\n{"), "\n");
      Concat(parts) == s[i + 1..] && SplitAtJoints(parts)
    ensures var parts := SplitOn(SubFrom(s, i, JointMatch, "}\n{"), "\n");
      Concat(parts) == s[i..] && SplitAtJoints(parts)
  {
    var rest := SubFrom(s, i + 1, JointMatch, "}\n{");
    PrependStep(s[i], rest, s[i + 1..]);
    assert SubFrom(s, i, JointMatch, "}\n{") == [s[i]] + rest;
    assert s[i..] == [s[i]] + s[i + 1..];
  }

  /** A line with k pairs '}{' (and no newline, as lines have none) gives k + 1 parts, none
      holding a newline; a line without any is its only part. */
  lemma FixConcatenatedSpec(line: string)
    requires '\n' !in line
    ensures |FixConcatenated(line)| == Joints(line, 0) + 1
    ensures forall p :: p in FixConcatenated(line) ==> '\n' !in p
    ensures !Contains(line, "}{") ==> FixConcatenated(line) == [line]
    ensures Concat(FixConcatenated(line)) == line
    ensures SplitAtJoints(FixConcatenated(line))
  {
    if Contains(line, "}{") {
      var t := SubFrom(line, 0, JointMatch, "}\n{");
      SplitSubstitution(line, 0);
      assert line[0..] == line;
      NewlinesAdded(line, 0);
      PieceCount(t, '\n');
      SplitOnCharPieces(t, '\n');
    } else {
      assert line[0..] == line;
      NoJoints(line, 0);
      assert Concat([line]) == Concat([]) + line;
    }
  }

  // ---------------------------------------------------------------- message dispatch

  /** A parsed stream message: its `type`, `message` and `full_text` fields. */
  datatype Message = Message(kind: string, message: string, fullText: string)

  /** The displayed text and the retained OCR text (fullTextLog). */
  datatype StreamState = StreamState(text: string, fullTextLog: string)

  /** One part: JSON.parse (None when it throws) and the switch on the message type. An
      'error' message throws inside the try block, so, like a parse failure, it changes
      nothing. */
  function Dispatch(st: StreamState, msg: Option<Message>): StreamState {
    if msg.None? then st
    else
      var m := msg.value;
      if m.kind == "init" then StreamState(m.message, st.fullTextLog)
      else if m.kind == "page_start" then StreamState(st.text + "\n\U{23F3} " + m.message, st.fullTextLog)
      else if m.kind == "page_done" then StreamState(st.text + " \U{2705} (Terminé)\n", st.fullTextLog)
      else if m.kind in ["ocr_warning", "page_warning"] then
        StreamState(st.text + " \U{26A0}\U{FE0F} " + m.message + "\n", st.fullTextLog)
      else if m.kind == "ocr_complete" then StreamState(m.fullText, m.fullText)
      else if m.kind in ["info", "stage"] then StreamState(st.text + "\n\U{2139}\U{FE0F} " + m.message, st.fullTextLog)
      else if m.kind == "complete" then
        StreamState(if st.fullTextLog != "" then st.fullTextLog else "Texte extrait.", st.fullTextLog)
      else st
  }

  /** The parts of one line, in order. */
  function DispatchParts(st: StreamState, parts: seq<string>, parse: string -> Option<Message>): StreamState {
    if parts == [] then st
    else Dispatch(DispatchParts(st, parts[..|parts| - 1], parse), parse(parts[|parts| - 1]))
  }

  /** One line: trimmed, skipped when blank, otherwise split into parts. */
  function DispatchLine(st: StreamState, line: string, parse: string -> Option<Message>): StreamState {
    var t := Trim(line);
    if t == [] then st else DispatchParts(st, FixConcatenated(t), parse)
  }

  /** The lines, in order. */
  function DispatchLines(st: StreamState, lines: seq<string>, parse: string -> Option<Message>): StreamState {
    if lines == [] then st
    else DispatchLine(DispatchLines(st, lines[..|lines| - 1], parse), lines[|lines| - 1], parse)
  }

  /** The message types the switch has a case for. */
  const Handled := ["init", "page_start", "page_done", "ocr_warning", "page_warning", "ocr_complete", "info", "stage", "complete", "error"]

  /** A part that fails to parse, carries an error or has an unknown type leaves the state
      as it is; only 'ocr_complete' changes the retained OCR text. */
  lemma DispatchIgnores(st: StreamState, msg: Option<Message>)
    ensures msg.None? ==> Dispatch(st, msg) == st
    ensures msg.Some? && msg.value.kind == "error" ==> Dispatch(st, msg) == st
    ensures msg.Some? && msg.value.kind !in Handled ==> Dispatch(st, msg) == st
    ensures Dispatch(st, msg).fullTextLog != st.fullTextLog ==> msg.Some? && msg.value.kind == "ocr_complete"
  {
  }

  /** 'ocr_complete' stores the full text and shows it; a 'complete' after it shows that
      text again, or "Texte extrait." when it is empty. */
  lemma OcrCompleteThenComplete(st: StreamState, fullText: string, m1: string, m2: string, f2: string)
    ensures var s1 := Dispatch(st, Some(Message("ocr_complete", m1, fullText)));
      s1 == StreamState(fullText, fullText) &&
      Dispatch(s1, Some(Message("complete", m2, f2))).text == (if fullText != "" then fullText else "Texte extrait.")
  {
  }

  /** Progress messages only append to the displayed text. */
  lemma ProgressAppends(st: StreamState, m: Message)
    requires m.kind in ["page_start", "page_done", "ocr_warning", "page_warning", "info", "stage"]
    ensures st.text <= Dispatch(st, Some(m)).text
    ensures Dispatch(st, Some(m)).fullTextLog == st.fullTextLog
  {
  }

  lemma {:induction false} DispatchPartsAppend(st: StreamState, a: seq<string>, b: seq<string>, parse: string -> Option<Message>)
    ensures DispatchParts(st, a + b, parse) == DispatchParts(DispatchParts(st, a, parse), b, parse)
    decreases |b|
  {
    if b == [] {
      assert a + b == a;
    } else {
      assert (a + b)[..|a + b| - 1] == a + b[..|b| - 1];
      DispatchPartsAppend(st, a, b[..|b| - 1], parse);
    }
  }

  /** A part that throws is caught and the parts after it are still processed: the line
      acts as if that part were not there. */
  lemma FailedPartSkipped(st: StreamState, a: seq<string>, bad: string, b: seq<string>, parse: string -> Option<Message>)
    requires parse(bad).None? || parse(bad).value.kind == "error"
    ensures DispatchParts(st, a + [bad] + b, parse) == DispatchParts(st, a + b, parse)
  {
    DispatchPartsAppend(st, a + [bad], b, parse);
    DispatchPartsAppend(st, a, [bad], parse);
    assert DispatchParts(DispatchParts(st, a, parse), [bad], parse) == DispatchParts(st, a, parse) by {
      assert [bad][..0] == [];
    }
    DispatchPartsAppend(st, a, b, parse);
  }

  lemma {:induction false} DispatchLinesAppend(st: StreamState, a: seq<string>, b: seq<string>, parse: string -> Option<Message>)
    ensures DispatchLines(st, a + b, parse) == DispatchLines(DispatchLines(st, a, parse), b, parse)
    decreases |b|
  {
    if b == [] {
      assert a + b == a;
    } else {
      assert (a + b)[..|a + b| - 1] == a + b[..|b| - 1];
      DispatchLinesAppend(st, a, b[..|b| - 1], parse);
    }
  }

  /** Blank lines change nothing. */
  lemma BlankLinesSkipped(st: StreamState, a: seq<string>, blank: string, b: seq<string>, parse: string -> Option<Message>)
    requires Trim(blank) == []
    ensures DispatchLines(st, a + [blank] + b, parse) == DispatchLines(st, a + b, parse)
  {
    DispatchLinesAppend(st, a + [blank], b, parse);
    DispatchLinesAppend(st, a, [blank], parse);
    assert DispatchLines(DispatchLines(st, a, parse), [blank], parse) == DispatchLines(st, a, parse) by {
      assert [blank][..0] == [];
    }
    DispatchLinesAppend(st, a, b, parse);
  }

  /** The whole stream: every line a newline ends is handled, in order; the text after the
      last newline is left in the buffer and never handled. */
  function StreamResult(st: StreamState, chunks: seq<string>, parse: string -> Option<Message>): StreamState {
    DispatchLines(st, CompleteLines(Concat(chunks)), parse)
  }

  // ---------------------------------------------------------------- the component

  datatype Step = Input | Preview | Results

  /** The uploaded file: its name and MIME type. */
  datatype FileInfo = FileInfo(name: string, mimeType: string)

  /** What the extraction request gives: a failure before any response (its message), a
      response that is not ok (its status), an ok response without a body, or the chunks
      of the body as the decoder yields them. */
  datatype ExtractResponse = FetchFailed(message: string) | NotOk(status: int) | NoBody | Body(chunks: seq<string>)

  /** The lines handleAnalyzeClick appends to the displayed text. */
  const AnalysisStarted := "\n\n\U{1F9E0} Lancement de l'analyse IA..."
  const AnalysisSucceeded := "\n\U{2705} Analyse terminée avec succès !"

  /** The error's message follows the failure line after one space. */
  function AnalysisFailed(message: string): string {
    "\n\n\U{274C} Erreur lors de l'analyse IA." + " " + message
  }

  /** The text shown while the request is under way. */
  const Connecting := "Connexion au serveur..."

  /** The text processFile leaves for a response: the reason the request failed, or what the
      stream's messages made of the connecting text. */
  function ResponseText(response: ExtractResponse, parse: string -> Option<Message>): string {
    match response
    case FetchFailed(message) => ExtractionError(message)
    case NotOk(status) => ExtractionError("Erreur serveur: " + IntToString(status))
    case NoBody => ExtractionError("Réponse vide du serveur")
    case Body(chunks) => StreamResult(StreamState(Connecting, ""), chunks, parse).text
  }

  /** The catch block's message for an error with this message. */
  function ExtractionError(message: string): string {
    if Contains(message, "fetch") then "Le serveur ne répond pas. Vérifiez la connexion."
    else "Erreur: " + message
  }

  class Panel {
    var step: Step
    var isProcessing: bool
    var isAnalyzing: bool
    var file: Option<FileInfo>
    var imagePreview: Option<string>
    var extractedText: Option<string>
    var analysisReport: Option<AnalysisTypes.AnalysisReport>

    constructor()
      ensures step == Input && !isProcessing && !isAnalyzing
      ensures file == None && imagePreview == None && extractedText == None && analysisReport == None
    {
      step := Input;
      isProcessing := false;
      isAnalyzing := false;
      file := None;
      imagePreview := None;
      extractedText := None;
      analysisReport := None;
    }

    /** The switch on one part's message. */
    method HandlePart(part: string, fullTextLog: string, parse: string -> Option<Message>) returns (log: string)
      requires extractedText.Some?
      modifies this`extractedText
      ensures var st := Dispatch(StreamState(old(extractedText).value, fullTextLog), parse(part));
        extractedText == Some(st.text) && log == st.fullTextLog
    {
      log := fullTextLog;
      var msg := parse(part);
      if msg.None? {
        return;
      }
      var m := msg.value;
      var current := extractedText.value;
      if m.kind == "init" {
        extractedText := Some(m.message);
      } else if m.kind == "page_start" {
        extractedText := Some(current + "\n\U{23F3} " + m.message);
      } else if m.kind == "page_done" {
        extractedText := Some(current + " \U{2705} (Terminé)\n");
      } else if m.kind == "ocr_warning" || m.kind == "page_warning" {
        extractedText := Some(current + " \U{26A0}\U{FE0F} " + m.message + "\n");
      } else if m.kind == "ocr_complete" {
        log := m.fullText;
        extractedText := Some(log);
      } else if m.kind == "info" || m.kind == "stage" {
        extractedText := Some(current + "\n\U{2139}\U{FE0F} " + m.message);
      } else if m.kind == "complete" {
        extractedText := Some(if log != "" then log else "Texte extrait.");
      }
    }

    /** The loop over the parts of one line. */
    method HandleParts(parts: seq<string>, fullTextLog: string, parse: string -> Option<Message>) returns (log: string)
      requires extractedText.Some?
      modifies this`extractedText
      ensures var st := DispatchParts(StreamState(old(extractedText).value, fullTextLog), parts, parse);
        extractedText == Some(st.text) && log == st.fullTextLog
    {
      log := fullTextLog;
      ghost var start := StreamState(extractedText.value, fullTextLog);
      for j := 0 to |parts|
        invariant extractedText.Some?
        invariant StreamState(extractedText.value, log) == DispatchParts(start, parts[..j], parse)
      {
        assert parts[..j + 1][..j] == parts[..j];
        log := HandlePart(parts[j], log, parse);
      }
      assert parts[..|parts|] == parts;
    }

    /** The loop over the lines of one chunk. */
    method HandleLines(lines: seq<string>, fullTextLog: string, parse: string -> Option<Message>) returns (log: string)
      requires extractedText.Some?
      modifies this`extractedText
      ensures var st := DispatchLines(StreamState(old(extractedText).value, fullTextLog), lines, parse);
        extractedText == Some(st.text) && log == st.fullTextLog
    {
      log := fullTextLog;
      ghost var start := StreamState(extractedText.value, fullTextLog);
      for i := 0 to |lines|
        invariant extractedText.Some?
        invariant StreamState(extractedText.value, log) == DispatchLines(start, lines[..i], parse)
      {
        assert lines[..i + 1][..i] == lines[..i];
        var line := Trim(lines[i]);
        if line == [] {
          continue;
        }
        var parts := FixConcatenated(line);
        log := HandleParts(parts, log, parse);
      }
      assert lines[..|lines|] == lines;
    }

    /** The read loop: each chunk is appended to the buffer, the buffer is cut into lines,
        the last of which stays in the buffer; the others are handled. */
    method ReadStream(chunks: seq<string>, parse: string -> Option<Message>) returns (buffer: string)
      requires extractedText.Some?
      modifies this`extractedText
      ensures extractedText == Some(StreamResult(StreamState(old(extractedText).value, ""), chunks, parse).text)
      ensures buffer == Tail(Concat(chunks)) && '\n' !in buffer
    {
      buffer := "";
      var fullTextLog := "";
      ghost var start := StreamState(extractedText.value, "");
      assert SplitOn("", "\n") == [""];
      for i := 0 to |chunks|
        invariant extractedText.Some?
        invariant buffer == Tail(Concat(chunks[..i]))
        invariant StreamState(extractedText.value, fullTextLog) == DispatchLines(start, CompleteLines(Concat(chunks[..i])), parse)
      {
        assert chunks[..i + 1][..i] == chunks[..i];
        ghost var all := Concat(chunks[..i]);
        assert Concat(chunks[..i + 1]) == all + chunks[i];
        CompleteLinesStep(all, chunks[i]);
        TailStep(all, chunks[i]);
        DispatchLinesAppend(start, CompleteLines(all), CompleteLines(buffer + chunks[i]), parse);
        buffer := buffer + chunks[i];
        var lines := SplitLines(buffer);
        buffer := lines[|lines| - 1];
        fullTextLog := HandleLines(lines[..|lines| - 1], fullTextLog, parse);
      }
      assert chunks[..|chunks|] == chunks;
      TailNoNewline(Concat(chunks));
    }

    /** What processFile leaves displayed for a response, from "Connexion au serveur...". */
    method ShowResponse(response: ExtractResponse, parse: string -> Option<Message>)
      requires extractedText == Some(Connecting)
      modifies this`extractedText
      ensures extractedText == Some(ResponseText(response, parse))
    {
      match response {
        case FetchFailed(message) =>
          extractedText := Some(ExtractionError(message));
        case NotOk(status) =>
          extractedText := Some(ExtractionError("Erreur serveur: " + IntToString(status)));
        case NoBody =>
          extractedText := Some(ExtractionError("Réponse vide du serveur"));
        case Body(chunks) =>
          var _ := ReadStream(chunks, parse);
      }
    }

    /** processFile: the panel moves to the preview step, shows the file, reads the
        extraction stream or shows why it failed, and stops processing. */
    method ProcessFile(fileObj: FileInfo, previewUrl: string, response: ExtractResponse, parse: string -> Option<Message>)
      modifies this`step, this`isProcessing, this`file, this`imagePreview, this`extractedText
      ensures step == Preview && !isProcessing && file == Some(fileObj)
      ensures imagePreview == if "image/" <= fileObj.mimeType then Some(previewUrl) else old(imagePreview)
      ensures extractedText == Some(ResponseText(response, parse))
    {
      isProcessing := true;
      step := Preview;
      file := Some(fileObj);
      if "image/" <= fileObj.mimeType {
        imagePreview := Some(previewUrl);
      }
      extractedText := Some(Connecting);
      ShowResponse(response, parse);
      isProcessing := false;
    }

    /** handleAnalyzeClick: with a report already there, only go to the results; with no
        text, or only whitespace, send nothing; otherwise send the text shown when the
        button was clicked (`sent`) and record the outcome. */
    method HandleAnalyzeClick(analyze: string -> Result<AnalysisTypes.AnalysisReport, string>) returns (sent: Option<string>)
      modifies this`step, this`isAnalyzing, this`extractedText, this`analysisReport
      ensures old(analysisReport).Some? ==>
        sent == None && step == Results && extractedText == old(extractedText) && analysisReport == old(analysisReport)
        && isAnalyzing == old(isAnalyzing)
      ensures old(analysisReport).None? && (old(extractedText).None? || Trim(old(extractedText).value) == []) ==>
        sent == None && step == old(step) && extractedText == old(extractedText) && analysisReport == None
        && isAnalyzing == old(isAnalyzing)
      ensures sent.Some? <==> old(analysisReport).None? && old(extractedText).Some? && Trim(old(extractedText).value) != []
      ensures sent.Some? ==> sent == old(extractedText) && !isAnalyzing
      ensures sent.Some? ==> (
        var shown := old(extractedText).value + AnalysisStarted;
        match analyze(sent.value)
        case Success(report) =>
          analysisReport == Some(report) && step == Results && extractedText == Some(shown + AnalysisSucceeded)
        case Failure(message) =>
          analysisReport == None && step == old(step) && extractedText == Some(shown + AnalysisFailed(message)))
    {
      if analysisReport.Some? {
        step := Results;
        return None;
      }
      if extractedText.None? || Trim(extractedText.value) == [] {
        return None;
      }
      var text := extractedText.value;
      sent := Some(text);
      isAnalyzing := true;
      extractedText := Some(text + AnalysisStarted);
      var outcome := analyze(text);
      match outcome {
        case Success(report) =>
          analysisReport := Some(report);
          extractedText := Some(extractedText.value + AnalysisSucceeded);
          step := Results;
        case Failure(message) =>
          extractedText := Some(extractedText.value + AnalysisFailed(message));
      }
      isAnalyzing := false;
    }

    /** reset: back to the input step with nothing loaded. */
    method Reset()
      modifies this
      ensures step == Input && file == None && imagePreview == None && extractedText == None && analysisReport == None
      ensures isProcessing == old(isProcessing) && isAnalyzing == old(isAnalyzing)
    {
      step := Input;
      file := None;
      imagePreview := None;
      extractedText := None;
      analysisReport := None;
    }
  }
}
