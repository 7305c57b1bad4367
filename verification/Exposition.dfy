/** Rendering a metrics snapshot in the Prometheus text exposition format. */
module Exposition {
  import opened Sorting
  import opened Text
  import opened MetricLabels

  datatype MetricType = COUNTER | GAUGE

  datatype Sample = Sample(name: string, helpText: string, kind: MetricType, labels: Labels, value: real)

  /** How the host language prints a decimal. */
  type Printer = real -> string

  /** The sort key is the pair (name, serialized labels). */
  predicate SampleLeq(a: Sample, b: Sample) {
    if a.name != b.name then LexLeq(a.name, b.name) else LexLeq(Serialize(a.labels), Serialize(b.labels))
  }

  function Quoted(item: Item): string { item.0 + "=\"" + item.1 + "\"" }

  function QuotedAll(items: seq<Item>): (parts: seq<string>)
    ensures |parts| == |items|
    ensures forall i :: 0 <= i < |items| ==> parts[i] == Quoted(items[i])
  {
    seq(|items|, i requires 0 <= i < |items| => Quoted(items[i]))
  }

  function LabelBlock(labels: Labels): string {
    if labels == map[] then "" else "{" + Join(QuotedAll(SortedItems(labels)), ",") + "}"
  }

  function FormatLine(s: Sample, show: Printer): string {
    s.name + LabelBlock(s.labels) + " " + show(s.value)
  }

  function TypeName(kind: MetricType): string { if kind == COUNTER then "counter" else "gauge" }

  function Headings(s: Sample): seq<string> {
    ["# HELP " + s.name + " " + s.helpText, "# TYPE " + s.name + " " + TypeName(s.kind)]
  }

  function Names(samples: seq<Sample>): set<string> {
    if samples == [] then {} else Names(samples[..|samples| - 1]) + {samples[|samples| - 1].name}
  }

  /** The lines for samples already in order: headings once per name, then one line per sample. */
  function Lines(samples: seq<Sample>, show: Printer): seq<string> {
    if samples == [] then [] else
      var n := |samples| - 1;
      Lines(samples[..n], show)
      + (if samples[n].name in Names(samples[..n]) then [] else Headings(samples[n]))
      + [FormatLine(samples[n], show)]
  }

  function Rendered(samples: seq<Sample>, show: Printer): string {
    Unlines(Lines(Sort(samples, SampleLeq), show))
  }

  method RenderPrometheus(samples: seq<Sample>, show: Printer) returns (text: string)
    ensures text == Rendered(samples, show)
  {
    var lines := RenderLines(Sort(samples, SampleLeq), show);
    if lines != [] {
      JoinWithFinalBreak(lines);
      lines := lines + [""];
    }
    text := Join(lines, "\n");
  }

  /** The loop over the sorted samples. */
  method RenderLines(sorted: seq<Sample>, show: Printer) returns (lines: seq<string>)
    ensures lines == Lines(sorted, show)
  {
    lines := [];
    var seen: set<string> := {};
    for i := 0 to |sorted|
      invariant lines == Lines(sorted[..i], show)
      invariant seen == Names(sorted[..i])
    {
      LinesStep(sorted, i, show);
      lines, seen := AddSample(lines, seen, sorted[i], show);
    }
    assert sorted[..|sorted|] == sorted;
  }

  /** The body of the loop: headings before the first sample of each name. */
  method AddSample(lines0: seq<string>, seen0: set<string>, sample: Sample, show: Printer)
    returns (lines: seq<string>, seen: set<string>)
    ensures seen == seen0 + {sample.name}
    ensures lines == if sample.name in seen0 then lines0 + [FormatLine(sample, show)]
                     else lines0 + Headings(sample) + [FormatLine(sample, show)]
  {
    lines, seen := lines0, seen0;
    if sample.name !in seen {
      lines := lines + Headings(sample);
      seen := seen + {sample.name};
    }
    lines := lines + [FormatLine(sample, show)];
  }

  lemma LinesStep(sorted: seq<Sample>, i: nat, show: Printer)
    requires i < |sorted|
    ensures var s, before := sorted[i], sorted[..i];
            && Names(sorted[..i + 1]) == Names(before) + {s.name}
            && Lines(sorted[..i + 1], show)
               == if s.name in Names(before) then Lines(before, show) + [FormatLine(s, show)]
                  else Lines(before, show) + Headings(s) + [FormatLine(s, show)]
  {
    assert sorted[..i + 1][..i] == sorted[..i];
    assert Lines(sorted[..i], show) + [] == Lines(sorted[..i], show);
  }

  lemma SampleLeqTotal()
    ensures TotalPreorder(SampleLeq)
  {
    forall x, y
      ensures SampleLeq(x, y) || SampleLeq(y, x)
    {
      LexTotal(x.name, y.name);
      LexTotal(Serialize(x.labels), Serialize(y.labels));
    }
    forall x, y, z | SampleLeq(x, y) && SampleLeq(y, z)
      ensures SampleLeq(x, z)
    {
      LexTotal(x.name, y.name);
      LexTotal(y.name, z.name);
      if x.name == y.name == z.name {
        LexTransitive(Serialize(x.labels), Serialize(y.labels), Serialize(z.labels));
      } else if x.name == z.name {
        LexTotal(x.name, y.name);
      } else {
        LexTransitive(x.name, y.name, z.name);
      }
    }
  }
}
