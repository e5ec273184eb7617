/** printk (kernel/utils.c): formatting into a buffer and then writing it to the console. */
module Printk {
  import opened StringOps
  import opened Numerals
  import opened Vsprintf
  import opened Console

  /** The bytes of a string's characters. */
  function Bytes(s: string): (b: seq<byte>)
    ensures |b| == |s|
  {
    seq(|s|, (i: int) requires 0 <= i < |s| => s[i] as int % 256)
  }

  lemma PutAllStep(d: Doc, text: seq<byte>, i: nat)
    requires DocOk(d) && i < |text|
    ensures PutAll(d, text[..i + 1]) == Put(PutAll(d, text[..i]), text[i])
  {
    assert text[..i + 1][..i] == text[..i];
  }

  /** The text of a format, started with no flags set. */
  function Output(fmt: string, args: seq<Arg>): string
    requires Parse(fmt, 0).Some? && Matches(Parse(fmt, 0).value, args)
  {
    Render(Parse(fmt, 0).value, Flags(false, false), args)
  }

  /** For text that fits printk_buf the console's document grows by exactly the rendered format. */
  method Print(console: FrameBuffer, buf: array<char>, fmt: string, args: seq<Arg>) returns (num: nat)
    requires console.Valid() && buf as object != console.fb
    requires Parse(fmt, 0).Some? && Matches(Parse(fmt, 0).value, args)
    requires |Output(fmt, args)| < buf.Length
    modifies buf, console.fb, console`cx, console`cy, console`inited, console`high, console`low, console`doc
    ensures console.Valid() && num == |Output(fmt, args)|
    ensures DocOk(old(console.doc)) && console.doc == PutAll(old(console.doc), Bytes(Output(fmt, args)))
  {
    hide *;
    ghost var before, d, out, bytes := buf[..], console.doc, Output(fmt, args), Bytes(Output(fmt, args));
    OutputIs(fmt, args);
    num := Vsprintf.Vsprintf(buf, fmt, args);
    WrotePrefix(before, buf[..], out);
    ConsoleDocOk(console);
    PutNothing(d, bytes);
    for i := 0 to num
      invariant console.Valid() && buf[..num] == out
      invariant console.doc == PutAll(d, bytes[..i])
    {
      PutAllStep(d, bytes, i);
      BytesAt(out, i);
      console.Putc(buf[i] as int % 256);
    }
    assert bytes[..num] == bytes;
  }

  lemma OutputIs(fmt: string, args: seq<Arg>)
    requires Parse(fmt, 0).Some? && Matches(Parse(fmt, 0).value, args)
    ensures Output(fmt, args) == Render(Parse(fmt, 0).value, Flags(false, false), args)
  {
  }

  lemma WrotePrefix(before: seq<char>, after: seq<char>, out: string)
    requires Wrote(before, after, 0, out + [0 as char])
    ensures |out| < |after| && after[..|out|] == out
  {
  }

  lemma BytesAt(s: string, i: nat)
    requires i < |s|
    ensures Bytes(s)[i] == s[i] as int % 256
  {
  }

  lemma ConsoleDocOk(console: FrameBuffer)
    requires console.Valid()
    ensures DocOk(console.doc)
  {
  }

  lemma PutNothing(d: Doc, text: seq<byte>)
    requires DocOk(d)
    ensures PutAll(d, text[..0]) == d
  {
  }

  predicate Plain(text: string) {
    forall i :: 0 <= i < |text| ==> text[i] != '%' && (text[i] as int) < 256 && text[i] as int !in {8, 9, 10, 12, 13}
  }

  lemma PlainOutput(text: string)
    requires Plain(text)
    ensures Parse(text, 0).Some? && Matches(Parse(text, 0).value, []) && Output(text, []) == text
  {
    hide Parse, Matches, Render;
    Vsprintf.PlainText(text, 0, Flags(false, false));
    assert text[0..] == text;
  }

  lemma PlainBytes(text: string)
    requires Plain(text)
    ensures |Bytes(text)| == |text|
    ensures forall i :: 0 <= i < |text| ==> Bytes(text)[i] == text[i] as int && Printable(Bytes(text)[i])
  {
  }

  /** A printk of plain text puts each of its characters, gray on black, into the next cell of the document. */
  lemma PlainPrintk(d: Doc, text: string)
    requires DocOk(d) && Plain(text)
    ensures Parse(text, 0).Some? && Matches(Parse(text, 0).value, []) && Output(text, []) == text
    ensures var d' := PutAll(d, Bytes(Output(text, [])));
            && d'.pos == d.pos + |text|
            && forall p: nat :: CellAt(d', p) ==
                 if d.pos <= p < d.pos + |text| then Cell(text[p - d.pos] as int, 7) else CellAt(d, p)
  {
    hide Parse, Matches, Render, Output, PutAll, Put, CellAt, Bytes, DocOk, Printable;
    PlainOutput(text);
    PlainBytes(text);
    Console.PlainText(d, Bytes(text));
  }
}
