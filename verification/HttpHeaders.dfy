/**
  Response headers (Daemon/common_utils/http_transaction.cpp): libcurl hands over the header
  bytes in arbitrary chunks; afterwards they are split at newlines, cut at the first colon,
  trimmed of spaces and carriage returns, and inserted unless the name is already there.
*/
module HttpHeaders {
  import opened Common

  type Headers = map<string, string>

  predicate Blank(c: char) { c == ' ' || c == '\r' }

  predicate AllBlank(s: string) {
    forall i :: 0 <= i < |s| ==> Blank(s[i])
  }

  predicate Trimmed(s: string) {
    s == "" || (!Blank(s[0]) && !Blank(s[|s| - 1]))
  }

  function NotBlankFrom(s: string, from: nat): (i: nat)
    requires from <= |s|
    ensures from <= i <= |s| && (forall k :: from <= k < i ==> Blank(s[k])) && (i < |s| ==> !Blank(s[i]))
    decreases |s| - from
  {
    if from == |s| || !Blank(s[from]) then from else NotBlankFrom(s, from + 1)
  }

  /** find_first_not_of(" \r"), with the length for npos. */
  function FirstNotBlank(s: string): (i: nat)
    ensures i <= |s| && AllBlank(s[..i]) && (i < |s| ==> !Blank(s[i]))
  {
    NotBlankFrom(s, 0)
  }

  function NotBlankBefore(s: string, end: nat): (i: nat)
    requires end <= |s|
    ensures i <= end && (forall k :: i <= k < end ==> Blank(s[k])) && (i > 0 ==> !Blank(s[i - 1]))
  {
    if end == 0 || !Blank(s[end - 1]) then end else NotBlankBefore(s, end - 1)
  }

  /** find_last_not_of(" \r") plus one, with 0 for npos. */
  function PastLastNotBlank(s: string): (i: nat)
    ensures i <= |s| && AllBlank(s[i..]) && (i > 0 ==> !Blank(s[i - 1]))
  {
    NotBlankBefore(s, |s|)
  }

  function Trim(s: string): (r: string)
    ensures Trimmed(r)
    ensures exists a, b :: 0 <= a <= b <= |s| && r == s[a..b] && AllBlank(s[..a]) && AllBlank(s[b..])
  {
    var a := FirstNotBlank(s);
    var t := s[a..];
    var e := PastLastNotBlank(t);
    assert t[..e] == s[a..a + e] && t[e..] == s[a + e..];
    assert t != "" ==> !Blank(t[0]);
    assert e == 0 ==> t[e..] == t;
    if e == 0 then t else t[..e]
  }

  lemma FirstNotBlankIs(s: string, i: nat)
    requires i <= |s| && AllBlank(s[..i]) && (i < |s| ==> !Blank(s[i]))
    ensures FirstNotBlank(s) == i
  {
    assert forall k :: 0 <= k < i ==> s[..i][k] == s[k];
  }

  lemma PastLastNotBlankIs(s: string, i: nat)
    requires i <= |s| && AllBlank(s[i..]) && (i > 0 ==> !Blank(s[i - 1]))
    ensures PastLastNotBlank(s) == i
  {
    assert forall k :: i <= k < |s| ==> s[i..][k - i] == s[k];
  }

  /** Trimming takes off exactly the blanks around a trimmed core. */
  lemma TrimFindsCore(pre: string, core: string, post: string)
    requires AllBlank(pre) && AllBlank(post) && Trimmed(core)
    ensures Trim(pre + core + post) == core
  {
    var s := pre + core + post;
    if core == "" {
      FirstNotBlankIs(s, |s|);
    } else {
      assert s[..|pre|] == pre && s[|pre|..] == core + post && s[|pre|] == core[0];
      FirstNotBlankIs(s, |pre|);
      assert (core + post)[|core|..] == post && (core + post)[|core| - 1] == core[|core| - 1];
      PastLastNotBlankIs(core + post, |core|);
      assert (core + post)[..|core|] == core;
    }
  }

  /** What successive std::getline calls extract: a last line need not end in a newline. */
  function Lines(s: string): seq<string>
    decreases |s|
  {
    if s == "" then [] else
    var i := IndexOf(s, '\n');
    [s[..i]] + Lines(if i == |s| then "" else s[i + 1..])
  }

  /** emplace: a name already present wins. */
  function Emplace(h: Headers, name: string, value: string): Headers {
    if name in h then h else h[name := value]
  }

  /** One line: cut at the first colon. */
  function AddLine(h: Headers, line: string): Headers {
    var i := IndexOf(line, ':');
    if i == |line| then h else Emplace(h, Trim(line[..i]), Trim(line[i + 1..]))
  }

  function AddLines(h: Headers, lines: seq<string>): Headers {
    if lines == [] then h else AddLine(AddLines(h, lines[..|lines| - 1]), lines[|lines| - 1])
  }

  function Parse(data: string): Headers {
    AddLines(map[], Lines(data))
  }

  lemma AddLinesAppend(h: Headers, lines: seq<string>, line: string)
    ensures AddLines(h, lines + [line]) == AddLine(AddLines(h, lines), line)
  {
    assert (lines + [line])[..|lines|] == lines;
  }

  lemma AddLinesStep(h: Headers, lines: seq<string>, n: nat)
    requires n < |lines|
    ensures AddLines(h, lines[..n + 1]) == AddLine(AddLines(h, lines[..n]), lines[n])
  {
    assert lines[..n + 1][..n] == lines[..n];
  }

  /** The lines still to be extracted from a stream. */
  function Pending(data: string, taken: nat): seq<string>
    requires taken <= |data|
  {
    Lines(data[taken..])
  }

  lemma PendingLine(data: string, taken: nat)
    requires taken < |data|
    ensures var rest := data[taken..]; var i := IndexOf(rest, '\n');
            Pending(data, taken) == [rest[..i]] + Pending(data, if taken + i == |data| then taken + i else taken + i + 1)
  {
    var rest := data[taken..];
    var i := IndexOf(rest, '\n');
    if i == |rest| {
      assert data[taken + i..] == "";
    } else {
      assert rest[i + 1..] == data[taken + i + 1..];
    }
  }

  lemma NextLine(all: seq<string>, n: nat, line: string, rest: seq<string>)
    requires n <= |all| && all[n..] == [line] + rest
    ensures n < |all| && all[n] == line && all[n + 1..] == rest
  {
    assert all[n] == all[n..][0];
    assert all[n + 1..] == all[n..][1..];
  }

  // ----- the transaction object -----

  class HttpTransaction {
    /** The stringstream: everything written, and how much getline has taken. */
    var responseHeadersData: string
    var taken: nat
    var headers: Headers

    constructor ()
      ensures responseHeadersData == "" && taken == 0 && headers == map[]
    {
      responseHeadersData, taken, headers := "", 0, map[];
    }

    /** The header callback; its result tells libcurl that every byte was consumed. */
    method ProcessResponseHeaders(data: string) returns (consumed: nat)
      modifies this
      ensures responseHeadersData == old(responseHeadersData) + data && consumed == |data|
      ensures taken == old(taken) && headers == old(headers)
    {
      responseHeadersData := responseHeadersData + data;
      consumed := |data|;
    }

    /** One std::getline; `None` once nothing is left to extract. */
    method GetLine() returns (line: Option<string>)
      requires taken <= |responseHeadersData|
      modifies this`taken
      ensures taken <= |responseHeadersData|
      ensures line.None? ==> Pending(responseHeadersData, old(taken)) == [] && taken == |responseHeadersData|
      ensures line.Some? ==>
        Pending(responseHeadersData, old(taken)) == [line.value] + Pending(responseHeadersData, taken)
    {
      if taken == |responseHeadersData| {
        return None;
      }
      var i := IndexOf(responseHeadersData[taken..], '\n');
      line := Some(responseHeadersData[taken..][..i]);
      PendingLine(responseHeadersData, taken);
      taken := if taken + i == |responseHeadersData| then taken + i else taken + i + 1;
    }

    /** The loop body: emplace does nothing when the name is there. */
    method AddHeader(header: string)
      modifies this`headers
      ensures headers == AddLine(old(headers), header)
    {
      var delimiter := IndexOf(header, ':');
      if delimiter != |header| {
        headers := Emplace(headers, Trim(header[..delimiter]), Trim(header[delimiter + 1..]));
      }
    }

    method ParseResponseHeaders()
      requires taken <= |responseHeadersData|
      modifies this`taken, this`headers
      ensures headers == AddLines(old(headers), Lines(old(responseHeadersData[taken..])))
      ensures taken == |responseHeadersData|
    {
      ghost var all := Pending(responseHeadersData, taken);
      ghost var n: nat := 0;
      var header := GetLine();
      while header.Some?
        invariant taken <= |responseHeadersData|
        invariant n <= |all| && headers == AddLines(old(headers), all[..n])
        invariant all[n..] == (if header.Some? then [header.value] else []) + Pending(responseHeadersData, taken)
        invariant header.None? ==> taken == |responseHeadersData|
        decreases |all| - n
      {
        NextLine(all, n, header.value, Pending(responseHeadersData, taken));
        AddLinesStep(old(headers), all, n);
        AddHeader(header.value);
        n := n + 1;
        header := GetLine();
      }
      assert all[..n] == all;
    }

    /** One transfer: however the bytes are cut into callbacks, the headers are those of the whole. */
    method Receive(chunks: seq<string>)
      requires taken == |responseHeadersData|
      modifies this
      ensures headers == AddLines(old(headers), Lines(Concat(chunks)))
      ensures taken == |responseHeadersData|
    {
      ghost var before := responseHeadersData;
      for i := 0 to |chunks|
        invariant responseHeadersData == before + Concat(chunks[..i])
        invariant taken == |before| && headers == old(headers)
      {
        assert chunks[..i + 1][..i] == chunks[..i];
        var consumed := ProcessResponseHeaders(chunks[i]);
      }
      assert chunks[..|chunks|] == chunks;
      assert responseHeadersData[taken..] == Concat(chunks);
      ParseResponseHeaders();
    }
  }

  // ----- homomorphism -----

  predicate EndsLine(s: string) {
    s == "" || s[|s| - 1] == '\n'
  }

  lemma LinesOfLine(line: string, rest: string)
    requires '\n' !in line
    ensures Lines(line + "\n" + rest) == [line] + Lines(rest)
  {
    var s := line + "\n" + rest;
    assert s[..|line|] == line && s[|line| + 1..] == rest;
    IndexOfIs(s, '\n', |line|);
  }

  lemma Regroup(line: string, rest: string, b: string)
    ensures line + "\n" + rest + b == line + "\n" + (rest + b)
  {
  }

  lemma RegroupLines(a: seq<string>, b: seq<string>, c: seq<string>)
    ensures a + b + c == a + (b + c)
  {
  }

  lemma LinesOfLineConcat(line: string, rest: string, b: string)
    requires '\n' !in line && Lines(rest + b) == Lines(rest) + Lines(b)
    ensures Lines(line + "\n" + rest + b) == Lines(line + "\n" + rest) + Lines(b)
  {
    LinesOfLine(line, rest);
    LinesOfLine(line, rest + b);
    Regroup(line, rest, b);
    RegroupLines([line], Lines(rest), Lines(b));
  }

  /** A non-empty text that ends its line is a first line and a rest that does too. */
  lemma SplitFirstLine(a: string) returns (line: string, rest: string)
    requires EndsLine(a) && a != ""
    ensures a == line + "\n" + rest && '\n' !in line && EndsLine(rest)
  {
    assert a[|a| - 1] in a;
    InSomewhere(a, '\n');
    var i := IndexOf(a, '\n');
    line, rest := a[..i], a[i + 1..];
  }

  lemma {:induction false} LinesOfConcat(a: string, b: string)
    requires EndsLine(a)
    ensures Lines(a + b) == Lines(a) + Lines(b)
    decreases |a|
  {
    if a == "" {
      assert a + b == b;
    } else {
      var line, rest := SplitFirstLine(a);
      LinesOfConcat(rest, b);
      LinesOfLineConcat(line, rest, b);
    }
  }

  predicate SpacesAndReturns(s: string) {
    forall i :: 0 <= i < |s| ==> s[i] == ' ' || s[i] == '\r'
  }

  /** Exactly spaces and carriage returns come off both ends, up to any other character, a tab included. */
  lemma TrimIsExact(pre: string, core: string, post: string)
    requires SpacesAndReturns(pre) && SpacesAndReturns(post)
    requires core == "" || (core[0] != ' ' && core[0] != '\r' && core[|core| - 1] != ' ' && core[|core| - 1] != '\r')
    ensures Trim(pre + core + post) == core
  {
    TrimFindsCore(pre, core, post);
  }

  lemma IndexOfPrefix(a: string, b: string, c: char)
    requires c in a
    ensures IndexOf(a + b, c) == IndexOf(a, c)
  {
    var i := IndexOf(a, c);
    assert (a + b)[..i] == a[..i];
    IndexOfIs(a + b, c, i);
  }

  lemma {:induction false} NewlineClosesLine(a: string)
    requires !EndsLine(a)
    ensures Lines(a + "\n") == Lines(a)
    decreases |a|
  {
    var i := IndexOf(a, '\n');
    if i == |a| {
      assert (a + "\n")[..|a|] == a;
      IndexOfIs(a + "\n", '\n', |a|);
      assert a[..i] == a && (a + "\n")[i + 1..] == "";
    } else {
      IndexOfPrefix(a, "\n", '\n');
      assert (a + "\n")[..i] == a[..i] && (a + "\n")[i + 1..] == a[i + 1..] + "\n";
      NewlineClosesLine(a[i + 1..]);
    }
  }

  /** Splitting the bytes is harmless for every continuation exactly at the end of a line. */
  lemma SplitsCleanlyExactlyAtLineEnds(a: string)
    ensures (forall b :: Lines(a + b) == Lines(a) + Lines(b)) <==> EndsLine(a)
  {
    if EndsLine(a) {
      forall b ensures Lines(a + b) == Lines(a) + Lines(b) { LinesOfConcat(a, b); }
    } else {
      NewlineClosesLine(a);
      assert Lines("\n") == [""];
      assert Lines(a + "\n") != Lines(a) + Lines("\n");
    }
  }

  lemma FrontOfConcat(first: seq<string>, second: seq<string>)
    requires second != []
    ensures var n, all := |second| - 1, first + second; all[..|all| - 1] == first + second[..n] && all[|all| - 1] == second[n]
  {
  }

  lemma {:induction false} AddLinesOfConcat(h: Headers, first: seq<string>, second: seq<string>)
    ensures AddLines(h, first + second) == AddLines(AddLines(h, first), second)
    decreases |second|
  {
    if second == [] {
      assert first + second == first;
    } else {
      FrontOfConcat(first, second);
      AddLinesOfConcat(h, first, second[..|second| - 1]);
    }
  }

  lemma EmplaceAt(h: Headers, added: string, value: string, name: string)
    ensures var next := Emplace(h, added, value);
      (name in next <==> name in h || name == added) && (name in next ==> next[name] == if name in h then h[name] else value)
  {
  }

  lemma AddLineAt(h: Headers, line: string, name: string)
    ensures var next, i := AddLine(h, line), IndexOf(line, ':');
      && (name in next <==> name in h || (i < |line| && name == Trim(line[..i])))
      && (name in next ==> next[name] == if name in h then h[name] else Trim(line[i + 1..]))
  {
    var i := IndexOf(line, ':');
    if i < |line| { EmplaceAt(h, Trim(line[..i]), Trim(line[i + 1..]), name); }
  }

  lemma {:induction false} OlderHeaderWins(h: Headers, lines: seq<string>, name: string)
    ensures var all, parsed := AddLines(h, lines), AddLines(map[], lines);
      && (name in all <==> name in h || name in parsed)
      && (name in all ==> all[name] == if name in h then h[name] else parsed[name])
    decreases |lines|
  {
    if lines == [] {
    } else {
      var n := |lines| - 1;
      OlderHeaderWins(h, lines[..n], name);
      AddLineAt(AddLines(h, lines[..n]), lines[n], name);
      AddLineAt(AddLines(map[], lines[..n]), lines[n], name);
    }
  }

  /** Headers already present win over every parsed line. */
  lemma OlderHeadersWin(h: Headers, lines: seq<string>)
    ensures AddLines(h, lines) == AddLines(map[], lines) + h
  {
    var all, parsed := AddLines(h, lines), AddLines(map[], lines);
    forall name ensures name in all <==> name in parsed + h { OlderHeaderWins(h, lines, name); }
    forall name | name in all ensures all[name] == (parsed + h)[name] { OlderHeaderWins(h, lines, name); }
  }

  /** Parsing two blocks gives the union of the two results, the first one winning. */
  lemma ParseIsHomomorphic(a: string, b: string)
    requires EndsLine(a)
    ensures Parse(a + b) == Parse(b) + Parse(a)
  {
    LinesOfConcat(a, b);
    AddLinesOfConcat(map[], Lines(a), Lines(b));
    OlderHeadersWin(Parse(a), Lines(b));
  }

  // ----- round trip -----

  /** What c_str hands on: the text up to its first NUL. */
  function CString(s: string): string {
    s[..IndexOf(s, '\0')]
  }

  /** The `name: value` format of InitHeaders, with the CRLF libcurl puts after each header. */
  function PrintOne(name: string, value: string): string {
    CString(name + ": " + value) + "\r\n"
  }

  function Print(hs: seq<(string, string)>): string {
    if hs == [] then "" else Print(hs[..|hs| - 1]) + PrintOne(hs[|hs| - 1].0, hs[|hs| - 1].1)
  }

  function ToMap(hs: seq<(string, string)>): Headers {
    if hs == [] then map[] else ToMap(hs[..|hs| - 1])[hs[|hs| - 1].0 := hs[|hs| - 1].1]
  }

  predicate WellFormed(name: string, value: string) {
    ':' !in name && '\n' !in name && Trimmed(name) && '\n' !in value && Trimmed(value)
  }

  /** Well formed, and not cut by c_str. */
  predicate Sendable(name: string, value: string) {
    WellFormed(name, value) && '\0' !in name && '\0' !in value
  }

  ghost predicate AllSendable(hs: seq<(string, string)>) {
    forall i :: 0 <= i < |hs| ==> Sendable(hs[i].0, hs[i].1)
  }

  ghost predicate DistinctNames(hs: seq<(string, string)>) {
    forall i, j :: 0 <= i < j < |hs| ==> hs[i].0 != hs[j].0
  }

  lemma UncutByC(s: string)
    requires '\0' !in s
    ensures CString(s) == s
  {
    assert IndexOf(s, '\0') == |s|;
  }

  lemma LineOf(line: string)
    requires '\n' !in line && line != ""
    ensures Lines(line + "\n") == [line]
  {
    NewlineClosesLine(line);
    assert IndexOf(line, '\n') == |line|;
    assert line[..|line|] == line && Lines("") == [];
  }

  lemma PrintedLine(name: string, value: string)
    requires Sendable(name, value)
    ensures Lines(PrintOne(name, value)) == [name + ": " + value + "\r"]
  {
    var line := name + ": " + value + "\r";
    UncutByC(name + ": " + value);
    assert PrintOne(name, value) == line + "\n";
    LineOf(line);
  }

  lemma CutAtColon(name: string, rest: string)
    requires ':' !in name
    ensures var line, i := name + ":" + rest, |name|;
            i < |line| && IndexOf(line, ':') == i && line[..i] == name && line[i + 1..] == rest
  {
    var line := name + ":" + rest;
    assert line[..|name|] == name && line[|name|] == ':';
    IndexOfIs(line, ':', |name|);
  }

  lemma AddCutLine(h: Headers, name: string, rest: string)
    requires ':' !in name && Trim(name) !in h
    ensures AddLine(h, name + ":" + rest) == h[Trim(name) := Trim(rest)]
  {
    CutAtColon(name, rest);
  }

  lemma TrimOfTrimmed(s: string)
    requires Trimmed(s)
    ensures Trim(s) == s
  {
    TrimFindsCore("", s, "");
    assert "" + s + "" == s;
  }

  lemma RegroupHeader(name: string, value: string)
    ensures name + ": " + value + "\r" == name + ":" + (" " + value + "\r")
  {
  }

  lemma PrintedLineParses(h: Headers, name: string, value: string)
    requires WellFormed(name, value) && name !in h
    ensures AddLine(h, name + ": " + value + "\r") == h[name := value]
  {
    RegroupHeader(name, value);
    TrimOfTrimmed(name);
    TrimFindsCore(" ", value, "\r");
    AddCutLine(h, name, " " + value + "\r");
  }

  lemma {:induction false} NamesOf(hs: seq<(string, string)>, name: string)
    ensures name in ToMap(hs) <==> exists i :: 0 <= i < |hs| && hs[i].0 == name
    decreases |hs|
  {
    if hs == [] {
    } else {
      var n := |hs| - 1;
      NamesOf(hs[..n], name);
      assert forall i :: 0 <= i < n ==> hs[..n][i] == hs[i];
    }
  }

  lemma {:induction false} PrintedEndsLine(hs: seq<(string, string)>)
    ensures EndsLine(Print(hs))
  {
  }

  lemma OneMoreParses(hs: seq<(string, string)>, name: string, value: string)
    requires Parse(Print(hs)) == ToMap(hs) && name !in ToMap(hs) && Sendable(name, value)
    ensures Parse(Print(hs) + PrintOne(name, value)) == ToMap(hs)[name := value]
  {
    PrintedEndsLine(hs);
    LinesOfConcat(Print(hs), PrintOne(name, value));
    PrintedLine(name, value);
    AddLinesAppend(map[], Lines(Print(hs)), name + ": " + value + "\r");
    PrintedLineParses(ToMap(hs), name, value);
  }

  lemma {:induction false} WellFormedComesBack(hs: seq<(string, string)>)
    requires DistinctNames(hs) && AllSendable(hs)
    ensures Parse(Print(hs)) == ToMap(hs)
    decreases |hs|
  {
    if hs == [] {
    } else {
      var n := |hs| - 1;
      var name, value := hs[n].0, hs[n].1;
      WellFormedComesBack(hs[..n]);
      NamesOf(hs[..n], name);
      OneMoreParses(hs[..n], name, value);
    }
  }

  ghost predicate Clean(h: Headers) {
    forall name :: name in h ==> WellFormed(name, h[name])
  }

  lemma {:induction false} LinesHaveNoNewline(s: string)
    ensures forall i :: 0 <= i < |Lines(s)| ==> '\n' !in Lines(s)[i]
    decreases |s|
  {
    if s == "" {
    } else {
      var i := IndexOf(s, '\n');
      if i < |s| { LinesHaveNoNewline(s[i + 1..]); }
    }
  }

  lemma TrimIsPart(s: string)
    ensures forall c :: c in Trim(s) ==> c in s
  {
    var a, b :| 0 <= a <= b <= |s| && Trim(s) == s[a..b];
  }

  lemma AddLineIsClean(h: Headers, line: string)
    requires Clean(h) && '\n' !in line
    ensures Clean(AddLine(h, line))
  {
    var i := IndexOf(line, ':');
    if i < |line| {
      TrimIsPart(line[..i]);
      TrimIsPart(line[i + 1..]);
    }
  }

  lemma {:induction false} ParsedIsClean(lines: seq<string>)
    requires forall i :: 0 <= i < |lines| ==> '\n' !in lines[i]
    ensures Clean(AddLines(map[], lines))
    decreases |lines|
  {
    if lines == [] {
    } else {
      ParsedIsClean(lines[..|lines| - 1]);
      AddLineIsClean(AddLines(map[], lines[..|lines| - 1]), lines[|lines| - 1]);
    }
  }

  lemma {:induction false} LaterNamesDoNotHide(hs: seq<(string, string)>, i: nat)
    requires DistinctNames(hs) && i < |hs|
    ensures hs[i].0 in ToMap(hs) && ToMap(hs)[hs[i].0] == hs[i].1
    decreases |hs|
  {
    var n := |hs| - 1;
    if i < n {
      LaterNamesDoNotHide(hs[..n], i);
    }
  }

  // ----- a NUL never comes back -----

  predicate NoNul(s: string) {
    '\0' !in s
  }

  lemma {:induction false} PrintedHasNoNul(hs: seq<(string, string)>)
    ensures NoNul(Print(hs))
    decreases |hs|
  {
    if hs == [] {
    } else {
      var n := |hs| - 1;
      PrintedHasNoNul(hs[..n]);
      assert NoNul(CString(hs[n].0 + ": " + hs[n].1));
    }
  }

  lemma {:induction false} LinesHaveNoNul(s: string)
    requires NoNul(s)
    ensures forall i :: 0 <= i < |Lines(s)| ==> NoNul(Lines(s)[i])
    decreases |s|
  {
    if s == "" {
    } else {
      var i := IndexOf(s, '\n');
      if i < |s| { LinesHaveNoNul(s[i + 1..]); }
    }
  }

  lemma TrimHasNoNul(s: string)
    requires NoNul(s)
    ensures NoNul(Trim(s))
  {
    TrimIsPart(s);
  }

  lemma AddLineHasNoNul(h: Headers, line: string, name: string)
    requires NoNul(line) && (name in h ==> NoNul(name) && NoNul(h[name]))
    ensures var next := AddLine(h, line); name in next ==> NoNul(name) && NoNul(next[name])
  {
    var i := IndexOf(line, ':');
    if i < |line| {
      assert NoNul(line[..i]) && NoNul(line[i + 1..]);
      TrimHasNoNul(line[..i]);
      TrimHasNoNul(line[i + 1..]);
    }
  }

  lemma {:induction false} ParsedHasNoNul(lines: seq<string>, name: string)
    requires forall i :: 0 <= i < |lines| ==> NoNul(lines[i])
    ensures var h := AddLines(map[], lines); name in h ==> NoNul(name) && NoNul(h[name])
    decreases |lines|
  {
    if lines == [] {
    } else {
      var n := |lines| - 1;
      ParsedHasNoNul(lines[..n], name);
      AddLineHasNoNul(AddLines(map[], lines[..n]), lines[n], name);
    }
  }

  lemma WhatComesBackIsSendable(hs: seq<(string, string)>, i: nat)
    requires DistinctNames(hs) && i < |hs| && Parse(Print(hs)) == ToMap(hs)
    ensures Sendable(hs[i].0, hs[i].1)
  {
    LaterNamesDoNotHide(hs, i);
    LinesHaveNoNewline(Print(hs));
    ParsedIsClean(Lines(Print(hs)));
    PrintedHasNoNul(hs);
    LinesHaveNoNul(Print(hs));
    ParsedHasNoNul(Lines(Print(hs)), hs[i].0);
  }

  /**
    Printing any list of headers with distinct names and parsing it gives back exactly those
    headers if and only if every name is free of colons, newlines and blank edges, every value
    of newlines and blank edges, and both of NUL. Colons inside values come back.
  */
  lemma RoundTripExactly(hs: seq<(string, string)>)
    requires DistinctNames(hs)
    ensures Parse(Print(hs)) == ToMap(hs) <==> AllSendable(hs)
  {
    if AllSendable(hs) {
      WellFormedComesBack(hs);
    }
    if Parse(Print(hs)) == ToMap(hs) {
      forall i | 0 <= i < |hs| ensures Sendable(hs[i].0, hs[i].1) { WhatComesBackIsSendable(hs, i); }
    }
  }
}
