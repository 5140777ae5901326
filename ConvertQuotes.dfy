/** The quote converter: plain lines of quotes become a topic file whose
    body holds one `T: Quote` / `D: <quote>` entry per quote. */
module ConvertQuotes {
  import opened Text
  import opened Seqs

  const Header := "---\nname: Quotes\ndescription: Collection of memorable quotes and thoughts\ncolor: #4A90E2\n---\n\n"

  /** `f"T: Quote\nD: {quote}\n"`. */
  function Entry(q: string): string
  {
    "T: Quote\nD: " + q + "\n"
  }

  /** Every line with Python's `strip()` applied. */
  function StripAll(lines: seq<string>): (r: seq<string>)
    ensures |r| == |lines|
  {
    if lines == [] then [] else [PyStrip(lines[0])] + StripAll(lines[1..])
  }

  predicate NonEmpty(s: string) { s != "" }

  /** The quotes of a file: its lines, stripped, without the empty ones. */
  function Quotes(lines: seq<string>): seq<string>
  {
    Filter(StripAll(lines), NonEmpty)
  }

  function Entries(qs: seq<string>): (r: seq<string>)
    ensures |r| == |qs|
  {
    if qs == [] then [] else [Entry(qs[0])] + Entries(qs[1..])
  }

  /** The entries joined with newlines: the part of the output after the
      header. */
  function Body(qs: seq<string>): string
  {
    Join(Entries(qs), "\n")
  }

  /** The text written to the output file. */
  function Output(lines: seq<string>): string
  {
    Header + Body(Quotes(lines))
  }

  lemma {:induction false} StripAllSnoc(lines: seq<string>, line: string)
    ensures StripAll(lines + [line]) == StripAll(lines) + [PyStrip(line)]
  {
    if lines != [] {
      assert (lines + [line])[1..] == lines[1..] + [line];
      StripAllSnoc(lines[1..], line);
    }
  }

  lemma {:induction false} EntriesSnoc(qs: seq<string>, q: string)
    ensures Entries(qs + [q]) == Entries(qs) + [Entry(q)]
  {
    if qs != [] {
      assert (qs + [q])[1..] == qs[1..] + [q];
      EntriesSnoc(qs[1..], q);
    }
  }

  /** One more line adds its stripped text as a quote, unless it is blank. */
  lemma QuotesSnoc(lines: seq<string>, line: string)
    ensures Quotes(lines + [line]) == Quotes(lines) + (if PyStrip(line) != "" then [PyStrip(line)] else [])
  {
    StripAllSnoc(lines, line);
    FilterAppend(StripAll(lines), [PyStrip(line)], NonEmpty);
    assert [PyStrip(line)][1..] == [];
  }

  /** Every quote is a non-empty stripped input line, the quotes keep the
      input order, and a whitespace-only line contributes nothing wherever it
      stands. */
  lemma QuotesShape(lines: seq<string>)
    ensures forall q :: q in Quotes(lines) <==> q in StripAll(lines) && q != ""
    ensures Subseq(Quotes(lines), StripAll(lines))
  {
    forall q ensures q in Quotes(lines) <==> q in StripAll(lines) && q != "" {
      FilterMembers(StripAll(lines), NonEmpty, q);
    }
    FilterIsSubseq(StripAll(lines), NonEmpty);
  }

  lemma {:induction false} StripAllAppend(a: seq<string>, b: seq<string>)
    ensures StripAll(a + b) == StripAll(a) + StripAll(b)
  {
    if a != [] {
      assert (a + b)[1..] == a[1..] + b;
      StripAllAppend(a[1..], b);
    } else {
      assert a + b == b;
    }
  }

  lemma BlankLineIgnored(a: seq<string>, blank: string, b: seq<string>)
    requires PyStrip(blank) == ""
    ensures Quotes(a + [blank] + b) == Quotes(a + b)
  {
    var sa, sb := StripAll(a), StripAll(b);
    assert StripAll(a + [blank] + b) == sa + [""] + sb by {
      StripAllAppend(a + [blank], b);
      StripAllAppend(a, [blank]);
      assert StripAll([blank]) == [""];
    }
    assert StripAll(a + b) == sa + sb by {
      StripAllAppend(a, b);
    }
    calc {
      Quotes(a + [blank] + b);
      Filter(sa + [""] + sb, NonEmpty);
      { FilterAppend(sa + [""], sb, NonEmpty); }
      Filter(sa + [""], NonEmpty) + Filter(sb, NonEmpty);
      { FilterAppend(sa, [""], NonEmpty); assert Filter([""], NonEmpty) == []; }
      Filter(sa, NonEmpty) + Filter(sb, NonEmpty);
      { FilterAppend(sa, sb, NonEmpty); }
      Quotes(a + b);
    }
  }

  /** Entry `k` is the entry of quote `k`, and with no quotes the output is the
      header alone. */
  lemma OutputShape(lines: seq<string>)
    ensures |Entries(Quotes(lines))| == |Quotes(lines)|
    ensures forall k :: 0 <= k < |Quotes(lines)| ==> Entries(Quotes(lines))[k] == Entry(Quotes(lines)[k])
    ensures Quotes(lines) == [] ==> Output(lines) == Header
  {
    var qs := Quotes(lines);
    forall k | 0 <= k < |qs| ensures Entries(qs)[k] == Entry(qs[k]) {
      EntriesAt(qs, k);
    }
    if qs == [] {
      assert Header + "" == Header;
    }
  }

  lemma {:induction false} EntriesAt(qs: seq<string>, k: nat)
    requires k < |qs|
    ensures Entries(qs)[k] == Entry(qs[k])
  {
    if k > 0 {
      EntriesAt(qs[1..], k - 1);
    }
  }

  /** The converter's loop state after the quotes `qs`: the last quote is
      still pending in `current`, the earlier ones are formatted. */
  predicate Pending(qs: seq<string>, current: string, formatted: seq<string>)
  {
    && (qs == [] ==> current == "" && formatted == [])
    && (qs != [] ==> current == qs[|qs| - 1] && formatted == Entries(qs[..|qs| - 1]))
  }

  /** A new quote formats the pending one, if any, and becomes pending. */
  lemma PendingPush(qs: seq<string>, current: string, formatted: seq<string>, q: string)
    requires Pending(qs, current, formatted)
    requires forall k :: 0 <= k < |qs| ==> qs[k] != ""
    ensures Pending(qs + [q], q, if current != "" then formatted + [Entry(current)] else formatted)
  {
    var qs' := qs + [q];
    assert qs'[..|qs'| - 1] == qs;
    if qs != [] {
      EntriesSnoc(qs[..|qs| - 1], current);
      DropLast(qs);
    }
  }

  /** At the end the pending quote is formatted too. */
  lemma PendingFlush(qs: seq<string>, current: string, formatted: seq<string>)
    requires Pending(qs, current, formatted)
    requires forall k :: 0 <= k < |qs| ==> qs[k] != ""
    ensures Entries(qs) == if current != "" then formatted + [Entry(current)] else formatted
  {
    if qs != [] {
      EntriesSnoc(qs[..|qs| - 1], current);
      DropLast(qs);
    }
  }

  lemma DropLast<T>(xs: seq<T>)
    requires xs != []
    ensures xs[..|xs| - 1] + [xs[|xs| - 1]] == xs
  {
  }

  /** `convert_quotes_file` without its file reads and writes: `lines` are the
      lines read, the result is the text written. */
  method ConvertQuotesFile(lines: seq<string>) returns (output: string)
    ensures output == Output(lines)
  {
    var formatted: seq<string> := [];
    var current := "";
    var i := 0;
    while i < |lines|
      invariant 0 <= i <= |lines|
      invariant Pending(Quotes(lines[..i]), current, formatted)
    {
      var line := PyStrip(lines[i]);
      assert lines[..i + 1] == lines[..i] + [lines[i]];
      QuotesSnoc(lines[..i], lines[i]);
      if line != "" {
        assert Quotes(lines[..i + 1]) == Quotes(lines[..i]) + [line];
        PendingPush(Quotes(lines[..i]), current, formatted, line);
        if current != "" {
          formatted := formatted + [Entry(current)];
        }
        current := line;
      } else {
        assert Quotes(lines[..i + 1]) == Quotes(lines[..i]);
      }
      i := i + 1;
    }
    assert lines[..i] == lines;
    PendingFlush(Quotes(lines), current, formatted);
    if current != "" {
      formatted := formatted + [Entry(current)];
    }
    output := Header + Join(formatted, "\n");
  }
}
