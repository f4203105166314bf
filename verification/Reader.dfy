/** The bundle reader's loops (analyze/count.c): splitting lines, and the two nested loops over them. */
module Reader {
  import opened Text
  import opened Bundle
  import opened ReaderMeaning

  method SkipSpaces(s: string) returns (p: nat)
    ensures p == LeadingSpaces(s)
  {
    p := 0;
    assert s[0..] == s;
    while p < |s| && s[p] == ' '
      invariant p <= |s| && LeadingSpaces(s) == p + LeadingSpaces(s[p..])
    {
      assert s[p..][1..] == s[p + 1..];
      p := p + 1;
    }
  }

  method TrimmedEnd(s: string, p: nat) returns (q: nat)
    requires p <= |s|
    ensures p <= q <= |s| && s[p..q] == TrimEnd(s[p..])
  {
    q := |s|;
    assert s[p..q] == s[p..];
    while q > p && IsBlank(s[q - 1])
      invariant p <= q <= |s| && TrimEnd(s[p..]) == TrimEnd(s[p..q])
    {
      assert s[p..q][..q - p - 1] == s[p..q - 1];
      q := q - 1;
    }
  }

  /** One line between two offsets, classified by moving two indices inwards. */
  method ReadLine(text: string, start: nat, stop: nat) returns (l: PLine)
    requires start <= stop <= |text|
    ensures l == ToPLine(text[start..stop])
  {
    hide LeadingSpaces, TrimEnd;
    var end := stop;
    if end > start && text[end - 1] == '\r' { end := end - 1; }
    var raw := text[start..end];
    CRDropped(text, start, stop);
    var p := SkipSpaces(raw);
    var q := TrimmedEnd(raw, p);
    var cls := Content;
    if end == start { cls := Blank; }
    else if raw[0] == '#' { cls := Comment; }
    else if q <= p { cls := White; }
    l := PLine(p, if cls == Content then raw[p..q] else "", raw, cls);
  }

  lemma CRDropped(text: string, start: nat, stop: nat)
    requires start <= stop <= |text|
    ensures var end := if stop > start && text[stop - 1] == '\r' then stop - 1 else stop;
      text[start..end] == DropCR(text[start..stop])
  {
    if stop > start {
      var line := text[start..stop];
      assert line[|line| - 1] == text[stop - 1] && line[..|line| - 1] == text[start..stop - 1];
    }
  }

  method SplitLines(text: string) returns (lines: seq<PLine>)
    ensures lines == ToPLines(Lines(text))
  {
    hide ToPLine, ToPLines, Lines;
    lines := [];
    var i := 0;
    assert text[0..] == text;
    while i < |text|
      invariant i <= |text| && ToPLines(Lines(text)) == lines + ToPLines(Lines(text[i..]))
    {
      var start := i;
      while i < |text| && text[i] != '\n'
        invariant start <= i <= |text| && forall j :: start <= j < i ==> text[j] != '\n'
      {
        i := i + 1;
      }
      var l := ReadLine(text, start, i);
      LinesStep(text, start, i);
      lines := lines + [l];
      if i < |text| { i := i + 1; }
    }
    assert text[|text|..] == "";
    NoLines();
  }

  lemma NoLines()
    ensures ToPLines(Lines("")) == []
  {
  }

  lemma LinesStep(text: string, start: nat, e: nat)
    requires start <= e <= |text| && start < |text| && (forall j :: start <= j < e ==> text[j] != '\n')
    requires e < |text| ==> text[e] == '\n'
    ensures ToPLines(Lines(text[start..])) ==
      [ToPLine(text[start..e])] + ToPLines(Lines(text[if e < |text| then e + 1 else e..]))
  {
    hide ToPLine;
    var s := text[start..];
    LineEndAt(s, 0, e - start);
    assert s[..e - start] == text[start..e];
    if e < |text| { assert s[e - start + 1..] == text[e + 1..]; }
    var rest := Lines(text[if e < |text| then e + 1 else e..]);
    assert Lines(s) == [text[start..e]] + rest;
    assert ([text[start..e]] + rest)[1..] == rest;
  }

  lemma ParseSkip(lines: seq<PLine>, i: nat, st: PState)
    requires i < |lines| && lines[i].cls != Content
    ensures ParseLines(lines[i..], st) == ParseLines(lines[i + 1..], st)
  {
    assert lines[i..][1..] == lines[i + 1..];
  }

  lemma ParseStep(lines: seq<PLine>, i: nat, st: PState, more: nat)
    requires i + more < |lines| && lines[i].cls == Content
    requires more == (if TakesProse(st, lines[i]) then ProseValue(lines[i..]).1 else 0)
    ensures var prose := if TakesProse(st, lines[i]) then ProseValue(lines[i..]).0 else "";
      var r := ContentStep(st, lines[i], prose);
      ParseLines(lines[i..], st) == if r.Err? then r else ParseLines(lines[i + more + 1..], r.value)
  {
    hide ContentStep, TakesProse, ProseValue;
    assert lines[i..][1 + more..] == lines[i + more + 1..];
  }

  /** The reader: an outer loop over bundle lines and kind headers, an inner one over a kind block's lines. */
  method ParseBundle(text: string) returns (r: Result<Doc>)
    ensures r == Parse(text)
    ensures TextSaid(r, ToPLines(Lines(text)))
  {
    ParseMeans(text);
    hide TextSaid, ToPLine, ContentStep, TakesProse, ProseValue, ParseLines;
    var lines := SplitLines(text);
    var n, i := |lines|, 0;
    assert lines[0..] == lines;
    while i < n && lines[i].cls != Content
      invariant i <= n && LeadingSkip(lines) == i + LeadingSkip(lines[i..])
    {
      assert lines[i..][1..] == lines[i + 1..];
      i := i + 1;
    }
    if i == n { return Err("empty bundle"); }
    if !StartsWith(lines[i].token, "analysis ") { return Err("expected 'analysis NAME' header"); }
    var rest := lines[i].token[9..];
    var name := rest[LeadingSpaces(rest)..];
    r := ParseBlocks(lines, i + 1, name);
  }

  method ParseBlocks(lines: seq<PLine>, from: nat, name: string) returns (r: Result<Doc>)
    requires from <= |lines|
    ensures var p := ParseLines(lines[from..], PState(Doc(name, map[]), None, false));
      r == if p.Err? then Err(p.message) else Ok(p.value.doc)
  {
    hide ParseLines, ProseValue, DataStep;
    ghost var goal := ParseLines(lines[from..], PState(Doc(name, map[]), None, false));
    var n, i := |lines|, from;
    var st := PState(Doc(name, map[]), None, false);
    while i < n
      invariant i <= n && goal == ParseLines(lines[i..], st)
      invariant st.cur.Some? && i < n ==> lines[i].cls == Content && lines[i].indent < 8
    {
      var l := lines[i];
      if l.cls != Content {
        ParseSkip(lines, i, st);
        i := i + 1;
        continue;
      }
      var (prose, more) := if TakesProse(st, l) then ProseValue(lines[i..]) else ("", 0);
      ParseStep(lines, i, st, more);
      if l.indent != 4 { return Err("expected a kind header at indent 4"); }
      if KwIs(l, "include") {
        i, st := i + 1, st.(cur := None);
      } else if KwIs(l, "description") {
        i, st := i + more + 1, st.(cur := None);
      } else {
        var kind := KindOf(l.token[..WordLength(l.token)]);
        if kind.None? { return Err("unknown kind"); }
        st := PState(st.doc, kind, false);
        st := SetData(st, CurData(st));
        i := i + 1;
        var failed;
        failed, i, st := ParseBlock(lines, i, st);
        if failed.Err? { return Err(failed.message); }
      }
    }
    assert lines[n..] == [];
    EndParse(st);
    return Ok(st.doc);
  }

  lemma EndParse(st: PState)
    ensures ParseLines([], st) == Ok(st)
  {
  }

  /** The lines of one kind block, up to the next content line indented by less than 8. */
  method ParseBlock(lines: seq<PLine>, from: nat, st0: PState) returns (res: Result<()>, i: nat, st: PState)
    requires from <= |lines| && st0.cur.Some?
    ensures res.Ok? ==> from <= i <= |lines| && st.cur.Some? && ParseLines(lines[from..], st0) == ParseLines(lines[i..], st)
    ensures res.Ok? && i < |lines| ==> lines[i].cls == Content && lines[i].indent < 8
    ensures res.Err? ==> ParseLines(lines[from..], st0) == Err(res.message)
  {
    hide ParseLines, ProseValue, SetField, ParseRow;
    i, st := from, st0;
    while i < |lines| && (lines[i].cls != Content || lines[i].indent >= 8)
      invariant from <= i <= |lines| && st.cur.Some? && ParseLines(lines[from..], st0) == ParseLines(lines[i..], st)
    {
      var l := lines[i];
      if l.cls != Content {
        ParseSkip(lines, i, st);
        i := i + 1;
        continue;
      }
      var field := Prefix(FirstWord(l.token), 31);
      var (prose, more) :=
        if l.indent == 12 && st.inProv && IsProse(field) then ProseValue(lines[i..]) else ("", 0);
      ParseStep(lines, i, st, more);
      var d := CurData(st);
      if l.indent == 8 {
        st := st.(inProv := false);
        if l.token == "provenance" {
          st := st.(inProv := true);
        } else if StartsWith(l.token, "encoding ") {
          st := SetData(st, d.(encoding := Prefix(l.token[9..], 7)));
        } else if StartsWith(l.token, "row ") {
          st := SetData(st, d.(rows := ParseRow(st.cur.value, d.rows, l.token[4..])));
        }
      } else if l.indent == 12 && st.inProv {
        var v := if IsProse(field) then prose else TrimEnd(LineValue(l));
        st := SetData(st, d.(prov := SetField(d.prov, field, v)));
      } else if l.indent > 12 {
        return Err("unexpected indent"), i, st;
      }
      i := i + more + 1;
    }
    return Ok(()), i, st;
  }
}
