/** The redirect lines that the agent's proxy manager keeps in a board's nginx server file
    (iotronic/wamp/proxies/nginx.py): the file is read into lines, edited and written back whole. */
module NginxRedirect {
  import opened Collections

  // ---------- Files and lines ----------

  predicate NoNewline(s: string) {
    '\n' !in s
  }

  predicate Terminated(line: string) {
    line != "" && line[|line| - 1] == '\n' && NoNewline(line[..|line| - 1])
  }

  // What readlines() can return: terminated lines, and at most a last one without its newline.
  predicate Lines(lines: seq<string>) {
    forall i :: 0 <= i < |lines| ==>
      Terminated(lines[i]) || (i == |lines| - 1 && lines[i] != "" && NoNewline(lines[i]))
  }

  // "".join(lines)
  function Join(lines: seq<string>): string {
    if lines == [] then "" else lines[0] + Join(lines[1..])
  }

  // Length of the first line of a non-empty text, its newline included.
  function FirstLine(text: string): (n: nat)
    requires text != ""
    ensures 0 < n <= |text| && NoNewline(text[..n - 1])
    ensures text[n - 1] == '\n' || (n == |text| && text[n - 1] != '\n')
  {
    if text[0] == '\n' || |text| == 1 then 1
    else
      var n := FirstLine(text[1..]);
      assert text[..n] == [text[0]] + text[1..][..n - 1];
      n + 1
  }

  // f.readlines()
  function ReadLines(text: string): seq<string>
    decreases |text|
  {
    if text == "" then [] else [text[..FirstLine(text)]] + ReadLines(text[FirstLine(text)..])
  }

  lemma {:induction false} ReadLinesAreLines(text: string)
    ensures Lines(ReadLines(text)) && Join(ReadLines(text)) == text
    decreases |text|
  {
    if text != "" {
      var n := FirstLine(text);
      var line, rest := text[..n], ReadLines(text[n..]);
      ReadLinesAreLines(text[n..]);
      assert line[..n - 1] == text[..n - 1] && text == line + text[n..];
      if text[n - 1] != '\n' {
        assert line == line[..n - 1] + [line[n - 1]] && rest == [];
      }
      ConsLine(line, rest);
    }
  }

  lemma ConsLine(line: string, rest: seq<string>)
    requires Lines(rest) && (Terminated(line) || (rest == [] && line != "" && NoNewline(line)))
    ensures Lines([line] + rest) && Join([line] + rest) == line + Join(rest)
  {
    assert ([line] + rest)[1..] == rest;
  }

  // Writing lines puts them after one another.
  lemma {:induction false} JoinConcatenates(a: seq<string>, b: seq<string>)
    ensures Join(a + b) == Join(a) + Join(b)
    ensures forall line :: Join([line]) == line
  {
    if a == [] {
      assert a + b == b;
    } else {
      JoinConcatenates(a[1..], b);
      assert (a + b)[1..] == a[1..] + b;
      assert a[0] + (Join(a[1..]) + Join(b)) == a[0] + Join(a[1..]) + Join(b);
    }
    forall line ensures Join([line]) == line {
      assert [line][1..] == [];
    }
  }

  // Writing lines and reading them back returns them exactly when they are lines of a file.
  lemma WriteReadIff(lines: seq<string>)
    ensures ReadLines(Join(lines)) == lines <==> Lines(lines)
  {
    ReadLinesAreLines(Join(lines));
    if Lines(lines) {
      ReadBack(lines);
    }
  }

  lemma {:induction false} ReadBack(lines: seq<string>)
    requires Lines(lines)
    ensures ReadLines(Join(lines)) == lines
  {
    if lines != [] {
      var line, rest := lines[0], Join(lines[1..]);
      var text := line + rest;
      ReadBack(lines[1..]);
      if Terminated(line) {
        FirstLineIs(text, |line|);
      } else {
        assert lines[1..] == [] && rest == "" && text == line;
        FirstLineIs(text, |line|);
      }
      assert text[..|line|] == line && text[|line|..] == rest;
    }
  }

  lemma FirstLineIs(text: string, n: nat)
    requires 0 < n <= |text| && NoNewline(text[..n - 1])
    requires text[n - 1] == '\n' || (n == |text| && text[n - 1] != '\n')
    ensures FirstLine(text) == n
  {
    var m := FirstLine(text);
    assert forall i :: 0 <= i < n - 1 ==> text[..n - 1][i] == text[i];
    assert forall i :: 0 <= i < m - 1 ==> text[..m - 1][i] == text[i];
  }

  // ---------- Redirect lines ----------

  const PREFIX := "if ($host = "
  const RETURN := ") { return 301 https://$host$request_uri; }"
  const SUFFIX := RETURN + "\n"

  // An absent and an empty dns mean the same host.
  function Host(board: string, zone: string, dns: Option<string>): string {
    if dns.None? || dns.value == "" then board + "." + zone
    else dns.value + "." + board + "." + zone
  }

  function StringRedirect(board: string, zone: string, dns: Option<string>): string {
    PREFIX + Host(board, zone, dns) + SUFFIX
  }

  // The line, read literally.
  lemma RedirectText(board: string, zone: string, dns: Option<string>)
    ensures var line := StringRedirect(board, zone, dns);
            var host := if dns.None? || dns.value == "" then board + "." + zone
                        else dns.value + "." + board + "." + zone;
            && |line| == 12 + |host| + 44
            && line[..12] == "if ($host = "
            && line[12..12 + |host|] == host
            && line[12 + |host|..] == ") { return 301 https://$host$request_uri; }\n"
  {
  }

  function Normal(dns: Option<string>): Option<string> {
    if dns == Some("") then None else dns
  }

  // Within one board's file, different hosts have different lines.
  lemma RedirectInjective(board: string, zone: string, d: Option<string>, e: Option<string>)
    ensures StringRedirect(board, zone, d) == StringRedirect(board, zone, e) <==> Normal(d) == Normal(e)
  {
    var h, k, tail := Host(board, zone, d), Host(board, zone, e), "." + board + "." + zone;
    if StringRedirect(board, zone, d) == StringRedirect(board, zone, e) {
      var line := StringRedirect(board, zone, d);
      assert |h| == |k| && line[|PREFIX|..|PREFIX| + |h|] == h && line[|PREFIX|..|PREFIX| + |k|] == k;
      if Normal(d).Some? && Normal(e).Some? {
        assert h == d.value + tail && k == e.value + tail;
        assert h[..|d.value|] == d.value && k[..|e.value|] == e.value;
      }
    }
  }

  function InsertEntry(line: string, lines: seq<string>): seq<string> {
    if line in lines then lines
    else
      var at := Min(4, |lines|);
      lines[..at] + [line] + lines[at..]
  }

  function RemoveEntry(line: string, lines: seq<string>): seq<string> {
    RemoveFirst(lines, line)
  }

  class ServerFile {
    var content: string

    method AddRedirect(board: string, zone: string, dns: Option<string>)
      modifies this
      ensures content == Join(InsertEntry(StringRedirect(board, zone, dns), ReadLines(old(content))))
    {
      var line := StringRedirect(board, zone, dns);
      var lines := ReadLines(content);
      if line !in lines {
        lines := lines[..Min(4, |lines|)] + [line] + lines[Min(4, |lines|)..];
      }
      content := Join(lines);
    }

    method RemoveRedirect(board: string, zone: string, dns: Option<string>)
      modifies this
      ensures content == Join(RemoveEntry(StringRedirect(board, zone, dns), ReadLines(old(content))))
    {
      content := Join(RemoveFirst(ReadLines(content), StringRedirect(board, zone, dns)));
    }
  }

  // ---------- Runs ----------

  datatype Op = Add(dns: Option<string>) | Remove(dns: Option<string>)

  function Edit(board: string, zone: string, lines: seq<string>, op: Op): seq<string> {
    match op
    case Add(d) => InsertEntry(StringRedirect(board, zone, d), lines)
    case Remove(d) => RemoveEntry(StringRedirect(board, zone, d), lines)
  }

  // The file's content after the operations, each of which reads and rewrites it.
  function Content(board: string, zone: string, base: string, ops: seq<Op>): string {
    if ops == [] then base
    else Join(Edit(board, zone, ReadLines(Content(board, zone, base, ops[..|ops| - 1])), ops[|ops| - 1]))
  }

  // The hosts added and not removed since.
  function Live(ops: seq<Op>): set<Option<string>> {
    if ops == [] then {}
    else
      var before := Live(ops[..|ops| - 1]);
      match ops[|ops| - 1]
      case Add(d) => before + {Normal(d)}
      case Remove(d) => before - {Normal(d)}
  }

  ghost predicate RedirectsOf(board: string, zone: string, live: set<Option<string>>, block: seq<string>) {
    && Distinct(block)
    && (forall l :: l in block ==> exists d :: d in live && l == StringRedirect(board, zone, d))
    && (forall d :: d in live ==> Normal(d) == d && StringRedirect(board, zone, d) in block)
  }

  // A base file that the block can be inserted into: at least four lines, the fourth terminated,
  // and no redirect line of its own.
  ghost predicate GoodBase(board: string, zone: string, base: seq<string>) {
    && Lines(base) && |base| >= 4 && Terminated(base[3])
    && forall d :: StringRedirect(board, zone, d) !in base
  }

  ghost predicate GoodOps(ops: seq<Op>) {
    forall i :: 0 <= i < |ops| && ops[i].dns.Some? ==> NoNewline(ops[i].dns.value)
  }

  function Around(base: seq<string>, block: seq<string>): seq<string>
    requires |base| >= 4
  {
    base[..4] + block + base[4..]
  }

  lemma RedirectIsLine(board: string, zone: string, dns: Option<string>)
    requires NoNewline(board) && NoNewline(zone) && (dns.Some? ==> NoNewline(dns.value))
    ensures Terminated(StringRedirect(board, zone, dns))
  {
    var line := StringRedirect(board, zone, dns);
    assert line[..|line| - 1] == PREFIX + Host(board, zone, dns) + RETURN;
    assert NoNewline(PREFIX) && NoNewline(RETURN) && NoNewline(Host(board, zone, dns));
  }

  lemma InBlockIffLive(board: string, zone: string, live: set<Option<string>>, block: seq<string>, d: Option<string>)
    requires RedirectsOf(board, zone, live, block)
    ensures StringRedirect(board, zone, d) in block <==> Normal(d) in live
  {
    RedirectInjective(board, zone, d, Normal(d));
    if StringRedirect(board, zone, d) in block {
      var e :| e in live && StringRedirect(board, zone, d) == StringRedirect(board, zone, e);
      RedirectInjective(board, zone, d, e);
    }
  }

  lemma AddToBlock(board: string, zone: string, live: set<Option<string>>, block: seq<string>, d: Option<string>)
    requires RedirectsOf(board, zone, live, block) && Normal(d) !in live
    ensures RedirectsOf(board, zone, live + {Normal(d)}, [StringRedirect(board, zone, d)] + block)
  {
    InBlockIffLive(board, zone, live, block, d);
    RedirectInjective(board, zone, d, Normal(d));
    var line := StringRedirect(board, zone, d);
    forall l | l in [line] + block
      ensures exists e :: e in live + {Normal(d)} && l == StringRedirect(board, zone, e)
    {
      if l in block {
        var e :| e in live && l == StringRedirect(board, zone, e);
        assert e in live + {Normal(d)};
      } else {
        assert Normal(d) in live + {Normal(d)} && l == StringRedirect(board, zone, Normal(d));
      }
    }
  }

  lemma RemoveFromBlock(board: string, zone: string, live: set<Option<string>>, block: seq<string>, d: Option<string>)
    requires RedirectsOf(board, zone, live, block)
    ensures RedirectsOf(board, zone, live - {Normal(d)}, RemoveFirst(block, StringRedirect(board, zone, d)))
  {
    var line := StringRedirect(board, zone, d);
    var left, after := RemoveFirst(block, line), live - {Normal(d)};
    RemoveFirstDistinct(block, line);
    assert forall l :: l in left <==> l in Elements(left);
    forall l | l in left ensures exists e :: e in after && l == StringRedirect(board, zone, e) {
      assert l in block && l != line;
      var e :| e in live && l == StringRedirect(board, zone, e);
      RedirectInjective(board, zone, d, e);
      assert e in after;
    }
    forall e | e in after ensures StringRedirect(board, zone, e) in left {
      RedirectInjective(board, zone, d, e);
      assert StringRedirect(board, zone, e) in Elements(block) - {line};
    }
  }

  lemma RemoveFirstMiddle(a: seq<string>, b: seq<string>, c: seq<string>, x: string)
    requires x !in a && (x in b || x !in c)
    ensures RemoveFirst(a + b + c, x) == a + RemoveFirst(b, x) + c
  {
    RemoveFirstAfter(a, b + c, x);
    assert a + b + c == a + (b + c);
    if x in b {
      RemoveFirstBefore(b, c, x);
    } else {
      RemoveFirstAfter(b, c, x);
      RemoveFirstAbsent(b, x);
      RemoveFirstAbsent(c, x);
    }
    assert a + (RemoveFirst(b, x) + c) == a + RemoveFirst(b, x) + c;
  }

  lemma {:induction false} RemoveFirstAfter(a: seq<string>, rest: seq<string>, x: string)
    requires x !in a
    ensures RemoveFirst(a + rest, x) == a + RemoveFirst(rest, x)
  {
    if a == [] {
      assert a + rest == rest;
    } else {
      RemoveFirstAfter(a[1..], rest, x);
      assert (a + rest)[1..] == a[1..] + rest;
    }
  }

  lemma {:induction false} RemoveFirstBefore(b: seq<string>, rest: seq<string>, x: string)
    requires x in b
    ensures RemoveFirst(b + rest, x) == RemoveFirst(b, x) + rest
  {
    assert (b + rest)[1..] == b[1..] + rest;
    if b[0] != x {
      RemoveFirstBefore(b[1..], rest, x);
    }
  }

  lemma AroundIsLines(board: string, zone: string, base: seq<string>, block: seq<string>)
    requires GoodBase(board, zone, base)
    requires forall l :: l in block ==> Terminated(l)
    ensures Lines(Around(base, block))
  {
    var lines := Around(base, block);
    forall i | 0 <= i < |lines|
      ensures Terminated(lines[i]) || (i == |lines| - 1 && lines[i] != "" && NoNewline(lines[i]))
    {
      if i < 4 {
        assert lines[i] == base[i];
      } else if i < 4 + |block| {
        assert lines[i] == block[i - 4] && block[i - 4] in block;
      } else {
        assert lines[i] == base[i - |block|];
      }
    }
  }

  lemma InsertedInFront(line: string, four: seq<string>, block: seq<string>, rest: seq<string>)
    requires |four| == 4 && line !in four && line !in block && line !in rest
    ensures InsertEntry(line, four + block + rest) == four + ([line] + block) + rest
  {
    var lines := four + block + rest;
    assert lines[..4] == four && lines[4..] == block + rest;
  }

  // One edit of the line list keeps the block to exactly the live hosts.
  lemma EditKeepsBlock(board: string, zone: string, base: seq<string>, live: set<Option<string>>,
                       block: seq<string>, op: Op) returns (block': seq<string>)
    requires GoodBase(board, zone, base) && RedirectsOf(board, zone, live, block)
    ensures Edit(board, zone, Around(base, block), op) == Around(base, block')
    ensures RedirectsOf(board, zone, if op.Add? then live + {Normal(op.dns)} else live - {Normal(op.dns)}, block')
  {
    var line, lines := StringRedirect(board, zone, op.dns), Around(base, block);
    InBlockIffLive(board, zone, live, block, op.dns);
    assert base == base[..4] + base[4..];
    assert line !in base[..4] && line !in base[4..];
    match op
    case Add(d) =>
      if line in block {
        block' := block;
        assert line in lines;
        assert live + {Normal(d)} == live;
      } else {
        block' := [line] + block;
        InsertedInFront(line, base[..4], block, base[4..]);
        AddToBlock(board, zone, live, block, d);
      }
    case Remove(d) =>
      block' := RemoveFirst(block, line);
      RemoveFirstMiddle(base[..4], block, base[4..], line);
      RemoveFromBlock(board, zone, live, block, d);
  }

  // After any operations the file is the base file with, after its fourth line, one redirect line
  // for each host that was added and not removed since, and it still reads back line by line.
  lemma {:induction false} FileHoldsLiveRedirects(board: string, zone: string, base: seq<string>, ops: seq<Op>)
    returns (block: seq<string>)
    requires NoNewline(board) && NoNewline(zone) && GoodOps(ops) && GoodBase(board, zone, base)
    ensures RedirectsOf(board, zone, Live(ops), block)
    ensures Content(board, zone, Join(base), ops) == Join(Around(base, block))
    ensures ReadLines(Content(board, zone, Join(base), ops)) == Around(base, block)
    ensures forall l :: l in block ==> Terminated(l)
  {
    if ops == [] {
      block := [];
      assert Around(base, []) == base;
      ReadBack(base);
    } else {
      var front, op := ops[..|ops| - 1], ops[|ops| - 1];
      var before := FileHoldsLiveRedirects(board, zone, base, front);
      block := EditKeepsBlock(board, zone, base, Live(front), before, op);
      LiveLinesTerminated(board, zone, ops, block);
      AroundIsLines(board, zone, base, block);
      ReadBack(Around(base, block));
    }
  }

  lemma LiveLinesTerminated(board: string, zone: string, ops: seq<Op>, block: seq<string>)
    requires NoNewline(board) && NoNewline(zone) && GoodOps(ops) && RedirectsOf(board, zone, Live(ops), block)
    ensures forall l :: l in block ==> Terminated(l)
  {
    LiveHostsClean(ops);
    forall l | l in block ensures Terminated(l) {
      var d :| d in Live(ops) && l == StringRedirect(board, zone, d);
      RedirectIsLine(board, zone, d);
    }
  }

  lemma {:induction false} LiveHostsClean(ops: seq<Op>)
    requires GoodOps(ops)
    ensures forall d :: d in Live(ops) && d.Some? ==> NoNewline(d.value)
  {
    if ops != [] {
      LiveHostsClean(ops[..|ops| - 1]);
    }
  }

  // Adding is idempotent, and removing a line that was just added gives the old lines back.
  lemma RemoveUndoesAdd(line: string, lines: seq<string>)
    ensures InsertEntry(line, InsertEntry(line, lines)) == InsertEntry(line, lines)
    ensures line !in lines ==> RemoveEntry(line, InsertEntry(line, lines)) == lines
  {
    var at := Min(4, |lines|);
    assert lines == lines[..at] + lines[at..];
    if line !in lines {
      RemoveFirstMiddle(lines[..at], [line], lines[at..], line);
      assert lines[..at] + [] + lines[at..] == lines;
    }
  }

  // The fourth line must be terminated: the file reads back as edited exactly when it is.
  lemma FirstAddReadsBackIff(board: string, zone: string, base: seq<string>, dns: Option<string>)
    requires NoNewline(board) && NoNewline(zone) && (dns.Some? ==> NoNewline(dns.value))
    requires Lines(base) && |base| >= 4 && StringRedirect(board, zone, dns) !in base
    ensures var lines := InsertEntry(StringRedirect(board, zone, dns), base);
            ReadLines(Join(lines)) == lines <==> Terminated(base[3])
  {
    var line := StringRedirect(board, zone, dns);
    var lines := InsertEntry(line, base);
    RedirectIsLine(board, zone, dns);
    WriteReadIff(lines);
    EditedLinesIff(line, base);
  }

  lemma EditedLinesIff(line: string, base: seq<string>)
    requires Lines(base) && |base| >= 4 && line !in base && Terminated(line)
    ensures Lines(InsertEntry(line, base)) <==> Terminated(base[3])
  {
    var lines := InsertEntry(line, base);
    assert lines[3] == base[3] && lines[4] == line;
    if Terminated(base[3]) {
      forall i | 0 <= i < |lines|
        ensures Terminated(lines[i]) || (i == |lines| - 1 && lines[i] != "" && NoNewline(lines[i]))
      {
        assert lines[i] == if i < 4 then base[i] else if i == 4 then line else base[i - 1];
      }
    }
  }
}
