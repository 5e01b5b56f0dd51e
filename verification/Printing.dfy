/** The only writer to the terminal: transcript lines above a repainted bottom line. */
module Printing {
  import opened Base
  import opened Palette
  import opened Terminal

  datatype Sink = Stdout | Stderr

  /** One write: where it goes, what it is part of, and its bytes. */
  datatype Output = Output(sink: Sink, who: Origin, text: string)

  function ClearOutputs(p: Palette, drawn: bool): seq<Output> {
    if p.color && drawn then [Output(Stdout, Bottom, p.RepaintPrefix())] else []
  }

  /** The bottom line: dimmed status on stdout, prompt on stderr, live terminals only. */
  function BottomOutputs(p: Palette, status: Option<string>): seq<Output> {
    if !p.color then []
    else
      (match status case Some(s) => [Output(Stdout, Bottom, p.Paint(Dim, s) + " ")] case None => [])
      + [Output(Stderr, Bottom, "> ")]
  }

  function LineOutputs(lines: seq<string>): seq<Output> {
    seq(|lines|, i requires 0 <= i < |lines| => Output(Stdout, Transcript, lines[i] + "\n"))
  }

  /** Off a terminal, a changed status is an ordinary line. */
  function StatusOutputs(p: Palette, statusChanged: bool, status: Option<string>): seq<Output> {
    if !p.color && statusChanged && status.Some? then [Output(Stdout, Bottom, status.value + "\n")] else []
  }

  function EmitOutputs(p: Palette, drawn: bool, lines: seq<string>, statusChanged: bool,
      status: Option<string>): seq<Output> {
    if lines == [] && !statusChanged then []
    else
      ClearOutputs(p, drawn) + LineOutputs(lines) + StatusOutputs(p, statusChanged, status) + BottomOutputs(p, status)
  }

  /** On a terminal the prompt, and nothing else, goes to stderr, once and last; stdout is for the rest. */
  lemma PromptOnStderr(p: Palette, drawn: bool, lines: seq<string>, statusChanged: bool, status: Option<string>, i: nat)
    requires p.color && i < |EmitOutputs(p, drawn, lines, statusChanged, status)|
    ensures var outs := EmitOutputs(p, drawn, lines, statusChanged, status);
            && (outs[i].sink == Stderr <==> i == |outs| - 1)
            && (i == |outs| - 1 ==> outs[i] == Output(Stderr, Bottom, "> "))
  {
    var outs, prompt := EmitOutputs(p, drawn, lines, statusChanged, status), Output(Stderr, Bottom, "> ");
    var rest := ClearOutputs(p, drawn) + LineOutputs(lines) +
      match status case Some(s) => [Output(Stdout, Bottom, p.Paint(Dim, s) + " ")] case None => [];
    assert outs == rest + [prompt];
    assert forall k :: 0 <= k < |rest| ==> rest[k].sink == Stdout;
  }

  lemma Chained(w: seq<Output>, a: seq<Output>, b: seq<Output>, c: seq<Output>, d: seq<Output>)
    ensures w + a + b + c + d == w + (a + b + c + d)
  {
  }

  class ChatPrinter {
    const palette: Palette
    const live: bool
    var bottomDrawn: bool
    var written: seq<Output>

    ghost predicate Valid()
      reads this
    {
      live == palette.color
    }

    constructor (p: Palette)
      ensures Valid() && palette == p && !bottomDrawn && written == []
    {
      palette, live, bottomDrawn, written := p, p.color, false, [];
    }

    method ClearBottom()
      requires Valid()
      modifies this
      ensures Valid() && bottomDrawn == (old(bottomDrawn) && !live)
      ensures written == old(written) + ClearOutputs(palette, old(bottomDrawn))
    {
      if live && bottomDrawn {
        written := written + [Output(Stdout, Bottom, palette.RepaintPrefix())];
        bottomDrawn := false;
      }
    }

    method DrawBottom(status: Option<string>)
      requires Valid()
      modifies this
      ensures Valid() && bottomDrawn == (old(bottomDrawn) || live)
      ensures written == old(written) + BottomOutputs(palette, status)
    {
      if !live {
        return;
      }
      if status.Some? {
        written := written + [Output(Stdout, Bottom, palette.Paint(Dim, status.value) + " ")];
      }
      written := written + [Output(Stderr, Bottom, "> ")];
      bottomDrawn := true;
    }

    method InputConsumed()
      requires Valid()
      modifies this`bottomDrawn
      ensures Valid() && !bottomDrawn
    {
      bottomDrawn := false;
    }

    method Emit(lines: seq<string>, statusChanged: bool, status: Option<string>)
      requires Valid()
      modifies this
      ensures Valid()
      ensures written == old(written) + EmitOutputs(palette, old(bottomDrawn), lines, statusChanged, status)
      ensures bottomDrawn == (old(bottomDrawn) || (live && (lines != [] || statusChanged)))
    {
      if lines == [] && !statusChanged {
        return;
      }
      ClearBottom();
      PrintLines(lines);
      PrintStatus(statusChanged, status);
      DrawBottom(status);
      Chained(old(written), ClearOutputs(palette, old(bottomDrawn)), LineOutputs(lines),
              StatusOutputs(palette, statusChanged, status), BottomOutputs(palette, status));
    }

    method PrintStatus(statusChanged: bool, status: Option<string>)
      requires Valid()
      modifies this`written
      ensures written == old(written) + StatusOutputs(palette, statusChanged, status)
    {
      if !live && statusChanged {
        if status.Some? {
          written := written + [Output(Stdout, Bottom, status.value + "\n")];
        }
      }
    }

    method PrintLines(lines: seq<string>)
      modifies this`written
      ensures written == old(written) + LineOutputs(lines)
    {
      var i := 0;
      while i < |lines|
        invariant 0 <= i <= |lines| && |written| == |old(written)| + i
        invariant forall k :: 0 <= k < |written| ==>
                    written[k] == if k < |old(written)| then old(written)[k]
                                  else Output(Stdout, Transcript, lines[k - |old(written)|] + "\n")
      {
        written := written + [Output(Stdout, Transcript, lines[i] + "\n")];
        i := i + 1;
      }
    }

    method Finish()
      requires Valid()
      modifies this
      ensures Valid() && bottomDrawn == (old(bottomDrawn) && !live)
      ensures written == old(written) + ClearOutputs(palette, old(bottomDrawn))
    {
      if live && bottomDrawn {
        written := written + [Output(Stdout, Bottom, palette.RepaintPrefix())];
        bottomDrawn := false;
      }
    }
  }

  // ----- the writes on a terminal -----

  function Display(s: Screen, outs: seq<Output>): (s': Screen)
    requires Terminal.Valid(s)
    ensures Terminal.Valid(s')
    decreases |outs|
  {
    if outs == [] then s else Display(Write(s, outs[0].text, outs[0].who), outs[1..])
  }

  lemma {:induction false} DisplayAppend(s: Screen, a: seq<Output>, b: seq<Output>)
    requires Terminal.Valid(s)
    ensures Display(s, a + b) == Display(Display(s, a), b)
    decreases |a|
  {
    if a == [] {
      assert a + b == b;
    } else {
      assert (a + b)[1..] == a[1..] + b;
      DisplayAppend(Write(s, a[0].text, a[0].who), a[1..], b);
    }
  }

  lemma {:induction false} DisplayGrows(s: Screen, outs: seq<Output>)
    requires Terminal.Valid(s)
    ensures s.rows <= Display(s, outs).rows
    decreases |outs|
  {
    if outs == [] {
    } else {
      RowsGrow(s, outs[0].text, outs[0].who);
      DisplayGrows(Write(s, outs[0].text, outs[0].who), outs[1..]);
    }
  }
}
