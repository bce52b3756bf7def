/** The hosts file as text: its lines, the marked block section and the lines around it. */
module HostsFile {
  import opened Basics
  import opened Strings

  const START := "# === SAGIRI-GUARD BLOCK START ==="
  const END := "# === SAGIRI-GUARD BLOCK END ==="

  // ---- Lines and text -------------------------------------------------------------------------------

  function WriteLines(lines: seq<string>): string {
    if lines == [] then "" else lines[0] + "\n" + WriteLines(lines[1..])
  }

  /** The scanner drops one carriage return at the end of a line. */
  function DropCR(line: string): string {
    if line != "" && line[|line| - 1] == '\r' then line[..|line| - 1] else line
  }

  function DropCRs(lines: seq<string>): seq<string> {
    seq(|lines|, i requires 0 <= i < |lines| => DropCR(lines[i]))
  }

  /** The lines a bufio.Scanner yields; nothing follows the last line break. */
  function ReadLines(text: string): seq<string> {
    var parts := Split(text, '\n');
    DropCRs(if parts[|parts| - 1] == "" then parts[..|parts| - 1] else parts)
  }

  /** The lines that written lines with line breaks inside really are. */
  function Flat(lines: seq<string>): seq<string> {
    if lines == [] then [] else Split(lines[0], '\n') + Flat(lines[1..])
  }

  predicate AllFree(lines: seq<string>, c: char) {
    forall i :: 0 <= i < |lines| ==> Free(lines[i], c)
  }

  lemma SplitCons(c: char, s: string)
    ensures var rest := Split(s, '\n');
            Split([c] + s, '\n') == if c == '\n' then [""] + rest else [[c] + rest[0]] + rest[1..]
  {
    assert ([c] + s)[1..] == s;
  }

  lemma FirstOfTwo(c: char, x: seq<string>, y: seq<string>)
    requires x != []
    ensures [""] + (x + y) == [""] + x + y
    ensures [[c] + (x + y)[0]] + (x + y)[1..] == [[c] + x[0]] + x[1..] + y
  {
  }

  lemma {:induction false} SplitConcat(a: string, b: string)
    ensures Split(a + "\n" + b, '\n') == Split(a, '\n') + Split(b, '\n')
  {
    if a == "" {
      SplitCons('\n', b);
      assert a + "\n" + b == ['\n'] + b;
    } else {
      var c, rest := a[0], a[1..];
      assert a == [c] + rest && a + "\n" + b == [c] + (rest + "\n" + b);
      SplitConcat(rest, b);
      SplitCons(c, rest);
      SplitCons(c, rest + "\n" + b);
      FirstOfTwo(c, Split(rest, '\n'), Split(b, '\n'));
    }
  }

  lemma {:induction false} SplitWritten(lines: seq<string>)
    ensures Split(WriteLines(lines), '\n') == Flat(lines) + [""]
  {
    if lines != [] {
      SplitConcat(lines[0], WriteLines(lines[1..]));
      SplitWritten(lines[1..]);
      Associative(Split(lines[0], '\n'), Flat(lines[1..]), [""]);
    }
  }

  /** Reading back what was written gives the same lines, cut at line breaks and less one carriage return. */
  lemma ReadsWhatWasWritten(lines: seq<string>)
    ensures ReadLines(WriteLines(lines)) == DropCRs(Flat(lines))
  {
    SplitWritten(lines);
    assert (Flat(lines) + [""])[..|Flat(lines)|] == Flat(lines);
  }

  /** A last line without a line break is read all the same. */
  lemma ReadsUnfinishedLine(lines: seq<string>, last: string)
    requires AllFree(lines, '\n') && Free(last, '\n') && last != ""
    ensures ReadLines(WriteLines(lines) + last) == DropCRs(lines) + [if last[|last| - 1] == '\r' then last[..|last| - 1] else last]
  {
    var parts := lines + [last];
    SplitUnfinished(lines, last);
    assert parts[|parts| - 1] == last;
    assert ReadLines(WriteLines(lines) + last) == DropCRs(parts);
    DropCRsConcat(lines, [last]);
    assert DropCRs([last]) == [DropCR(last)];
  }

  lemma {:induction false} SplitUnfinished(lines: seq<string>, last: string)
    requires AllFree(lines, '\n') && Free(last, '\n')
    ensures Split(WriteLines(lines) + last, '\n') == lines + [last]
  {
    if lines == [] {
      SplitOfFree(last, '\n');
      assert "" + last == last;
    } else {
      SplitUnfinished(lines[1..], last);
      assert WriteLines(lines) + last == lines[0] + "\n" + (WriteLines(lines[1..]) + last);
      SplitConcat(lines[0], WriteLines(lines[1..]) + last);
      SplitOfFree(lines[0], '\n');
      assert lines == [lines[0]] + lines[1..];
    }
  }

  lemma {:induction false} FlatConcat(a: seq<string>, b: seq<string>)
    ensures Flat(a + b) == Flat(a) + Flat(b)
  {
    if a == [] {
      assert a + b == b;
    } else {
      FlatConcat(a[1..], b);
      assert (a + b)[1..] == a[1..] + b && (a + b)[0] == a[0];
      Associative(Split(a[0], '\n'), Flat(a[1..]), Flat(b));
    }
  }

  lemma {:induction false} FlatOfFree(lines: seq<string>)
    requires AllFree(lines, '\n')
    ensures Flat(lines) == lines
  {
    if lines != [] {
      SplitOfFree(lines[0], '\n');
      FlatOfFree(lines[1..]);
      assert lines == [lines[0]] + lines[1..];
    }
  }

  lemma DropCRsConcat(a: seq<string>, b: seq<string>)
    ensures DropCRs(a + b) == DropCRs(a) + DropCRs(b)
  {
  }

  lemma ReadLinesAreFree(text: string)
    ensures AllFree(ReadLines(text), '\n')
  {
    SplitPartsAreFree(text, '\n');
    var parts := Split(text, '\n');
    forall i | 0 <= i < |ReadLines(text)| ensures Free(ReadLines(text)[i], '\n') {
      assert Free(parts[i], '\n');
    }
  }

  // ---- The block section ------------------------------------------------------------------------------

  /** strings.Contains. */
  predicate Contains(s: string, sub: string) {
    sub <= s || (s != "" && Contains(s[1..], sub))
  }

  predicate Marked(line: string) {
    Contains(line, START) || Contains(line, END)
  }

  predicate Unmarked(lines: seq<string>) {
    forall i :: 0 <= i < |lines| ==> !Marked(lines[i])
  }

  /** removeBlockSection, begun inside or outside a block. */
  function Strip(lines: seq<string>, inBlock: bool): seq<string> {
    if lines == [] then []
    else if Contains(lines[0], START) then Strip(lines[1..], true)
    else if Contains(lines[0], END) then Strip(lines[1..], false)
    else (if inBlock then [] else [lines[0]]) + Strip(lines[1..], inBlock)
  }

  lemma {:induction false} ContainsChar(s: string, sub: string, c: char)
    requires Contains(s, sub) && c in sub
    ensures c in s
  {
    if sub <= s {
      assert sub == s[..|sub|];
    } else {
      ContainsChar(s[1..], sub, c);
    }
  }

  lemma {:induction false} ContainsIsLonger(s: string, sub: string)
    requires Contains(s, sub)
    ensures |sub| <= |s|
  {
    if !(sub <= s) {
      ContainsIsLonger(s[1..], sub);
    }
  }

  lemma {:induction false} PrefixContains(s: string, n: nat, sub: string)
    requires n <= |s| && Contains(s[..n], sub)
    ensures Contains(s, sub)
  {
    if !(sub <= s[..n]) {
      assert s[..n][1..] == s[1..][..n - 1];
      PrefixContains(s[1..], n - 1, sub);
    }
  }

  /** Both markers have a capital letter, so text in lower case cannot contain them. */
  lemma LowerIsUnmarked(line: string)
    requires Free(line, 'S')
    ensures !Marked(line)
  {
    assert START[6] == 'S' && END[6] == 'S';
    if Contains(line, START) { ContainsChar(line, START, 'S'); }
    if Contains(line, END) { ContainsChar(line, END, 'S'); }
  }

  lemma MarkersMark()
    ensures Contains(START, START) && Contains(END, END) && !Contains(END, START)
    ensures DropCR(START) == START && DropCR(END) == END
  {
    if Contains(END, START) { ContainsIsLonger(END, START); }
  }

  lemma StartIsOneLine()
    ensures Split(START, '\n') == [START]
  {
    SplitOfFree(START, '\n');
  }

  lemma EndIsOneLine()
    ensures Split(END, '\n') == [END]
  {
    SplitOfFree(END, '\n');
  }

  lemma {:induction false} StripOutside(a: seq<string>, b: seq<string>)
    requires Unmarked(a)
    ensures Strip(a + b, false) == a + Strip(b, false)
  {
    if a == [] {
      assert a + b == b;
    } else {
      StripOutside(a[1..], b);
      assert (a + b)[1..] == a[1..] + b && (a + b)[0] == a[0];
      assert !Marked(a[0]);
      assert a == [a[0]] + a[1..];
      Associative([a[0]], a[1..], Strip(b, false));
    }
  }

  lemma {:induction false} StripInside(a: seq<string>, b: seq<string>)
    requires Unmarked(a)
    ensures Strip(a + b, true) == Strip(b, true)
  {
    if a == [] {
      assert a + b == b;
    } else {
      StripInside(a[1..], b);
      assert (a + b)[1..] == a[1..] + b && (a + b)[0] == a[0];
      assert !Marked(a[0]);
    }
  }

  lemma StripBetween(first: string, body: seq<string>, last: string)
    requires Contains(first, START) && !Contains(last, START) && Contains(last, END) && Unmarked(body)
    ensures Strip([first] + body + [last], false) == []
  {
    var lines := [first] + body + [last];
    assert lines[1..] == body + [last];
    StripInside(body, [last]);
    assert [last][1..] == [];
    assert Strip([], false) == [];
  }

  lemma {:induction false} StrippedLines(lines: seq<string>, inBlock: bool)
    ensures Unmarked(Strip(lines, inBlock))
    ensures forall line :: line in Strip(lines, inBlock) ==> line in lines
  {
    if lines != [] {
      StrippedLines(lines[1..], true);
      StrippedLines(lines[1..], false);
      assert lines == [lines[0]] + lines[1..];
    }
  }

  predicate Ends(line: string) {
    Contains(line, END) && !Contains(line, START)
  }

  /** Line `i` is no marker, and every start marker before it is followed by an end marker before it. */
  ghost predicate Outside(lines: seq<string>, i: nat)
    requires i < |lines|
  {
    && !Contains(lines[i], START) && !Contains(lines[i], END)
    && forall j :: 0 <= j < i && Contains(lines[j], START) ==> exists k :: j < k < i && Ends(lines[k])
  }

  /** The lines outside any block among the first `n`, in order. */
  ghost function OutsideLines(lines: seq<string>, n: nat): seq<string>
    requires n <= |lines|
  {
    if n == 0 then [] else OutsideLines(lines, n - 1) + if Outside(lines, n - 1) then [lines[n - 1]] else []
  }

  /** Whether line `n` is reached inside a block. */
  ghost predicate Inside(lines: seq<string>, n: nat)
    requires n <= |lines|
  {
    exists j :: 0 <= j < n && Contains(lines[j], START) && forall k :: j < k < n ==> !Ends(lines[k])
  }

  lemma InsideNext(lines: seq<string>, n: nat)
    requires n < |lines|
    ensures Inside(lines, n + 1) <==> Contains(lines[n], START) || (Inside(lines, n) && !Contains(lines[n], END))
  {
    if Inside(lines, n) && !Ends(lines[n]) {
      var j :| 0 <= j < n && Contains(lines[j], START) && forall k :: j < k < n ==> !Ends(lines[k]);
      assert forall k :: j < k < n + 1 ==> !Ends(lines[k]);
    }
    if Inside(lines, n + 1) && !Contains(lines[n], START) {
      var j :| 0 <= j < n + 1 && Contains(lines[j], START) && forall k :: j < k < n + 1 ==> !Ends(lines[k]);
      assert j < n && forall k :: j < k < n ==> !Ends(lines[k]);
      assert !Ends(lines[n]);
    }
  }

  lemma OutsideIsNotInside(lines: seq<string>, n: nat)
    requires n < |lines|
    ensures Outside(lines, n) <==> !Contains(lines[n], START) && !Contains(lines[n], END) && !Inside(lines, n)
  {
  }

  lemma {:induction false} StripFrom(lines: seq<string>, n: nat)
    requires n <= |lines|
    ensures OutsideLines(lines, |lines|) == OutsideLines(lines, n) + Strip(lines[n..], Inside(lines, n))
    decreases |lines| - n
  {
    if n < |lines| {
      InsideNext(lines, n);
      OutsideIsNotInside(lines, n);
      StripFrom(lines, n + 1);
      StripStep(lines, n, OutsideLines(lines, n), Inside(lines, n));
    }
  }

  /** Stripping, exactly: what is left are the lines outside any block, in order. */
  lemma StripIsOutside(lines: seq<string>)
    ensures Strip(lines, false) == OutsideLines(lines, |lines|)
  {
    StripFrom(lines, 0);
    assert lines[0..] == lines;
  }

  // ---- Rewriting the file ------------------------------------------------------------------------------

  function DomainLines(domain: string): seq<string> {
    ["127.0.0.1 " + domain] + if "www." <= domain then [] else ["127.0.0.1 www." + domain]
  }

  function Generated(order: seq<string>): seq<string> {
    if order == [] then [] else Generated(order[..|order| - 1]) + DomainLines(order[|order| - 1])
  }

  /** The block for the domains, in the order in which the map was walked. */
  function Block(order: seq<string>): seq<string> {
    if order == [] then [] else [START] + Generated(order) + [END]
  }

  /** The lines outside any block. */
  function Users(text: string): seq<string> {
    Strip(ReadLines(text), false)
  }

  predicate NoCR(lines: seq<string>) {
    forall i :: 0 <= i < |lines| ==> DropCR(lines[i]) == lines[i]
  }

  lemma {:induction false} GeneratedAreLower(order: seq<string>)
    requires AllFree(order, 'S')
    ensures AllFree(Generated(order), 'S')
  {
    if order != [] {
      GeneratedAreLower(order[..|order| - 1]);
      DomainLinesAreLower(order[|order| - 1]);
    }
  }

  lemma DomainLinesAreLower(domain: string)
    requires Free(domain, 'S')
    ensures AllFree(DomainLines(domain), 'S')
  {
    assert Free("127.0.0.1 ", 'S') && Free("127.0.0.1 www.", 'S');
  }

  lemma {:induction false} SplitKeepsFree(s: string, c: char)
    requires Free(s, c)
    ensures AllFree(Split(s, '\n'), c)
  {
    if s != "" {
      assert s == [s[0]] + s[1..];
      SplitKeepsFree(s[1..], c);
    }
  }

  lemma {:induction false} FlatKeepsFree(lines: seq<string>, c: char)
    requires AllFree(lines, c)
    ensures AllFree(Flat(lines), c)
  {
    if lines != [] {
      SplitKeepsFree(lines[0], c);
      FlatKeepsFree(lines[1..], c);
    }
  }

  lemma FreeLinesAreUnmarked(lines: seq<string>)
    requires AllFree(lines, 'S')
    ensures Unmarked(DropCRs(lines))
  {
    forall i | 0 <= i < |lines| ensures !Marked(DropCRs(lines)[i]) {
      LowerIsUnmarked(DropCR(lines[i]));
    }
  }

  lemma DropCRsStayUnmarked(lines: seq<string>)
    requires Unmarked(lines)
    ensures Unmarked(DropCRs(lines))
  {
    forall i | 0 <= i < |lines| ensures !Marked(DropCRs(lines)[i]) {
      var line := lines[i];
      assert !Marked(line);
      if DropCR(line) != line {
        if Contains(DropCR(line), START) { PrefixContains(line, |line| - 1, START); }
        if Contains(DropCR(line), END) { PrefixContains(line, |line| - 1, END); }
      }
    }
  }

  lemma UsersArePlain(text: string)
    ensures Unmarked(Users(text)) && AllFree(Users(text), '\n')
  {
    var lines := ReadLines(text);
    StrippedLines(lines, false);
    ReadLinesAreFree(text);
    assert forall line :: line in lines ==> Free(line, '\n');
    forall i | 0 <= i < |Users(text)| ensures Free(Users(text)[i], '\n') {
      assert Users(text)[i] in Strip(lines, false);
    }
  }

  lemma FlatBetween(first: string, body: seq<string>, last: string)
    requires Split(first, '\n') == [first] && Split(last, '\n') == [last]
    ensures Flat([first] + body + [last]) == [first] + Flat(body) + [last]
  {
    FlatConcat([first] + body, [last]);
    FlatConcat([first], body);
    FlatOfOne(first);
    FlatOfOne(last);
  }

  lemma FlatOfOne(line: string)
    requires Split(line, '\n') == [line]
    ensures Flat([line]) == [line]
  {
    assert [line][1..] == [];
    assert [line] + Flat([]) == [line];
  }

  lemma DropBetween(first: string, body: seq<string>, last: string)
    requires DropCR(first) == first && DropCR(last) == last
    ensures DropCRs([first] + body + [last]) == [first] + DropCRs(body) + [last]
  {
  }

  lemma FlatBlock(order: seq<string>)
    requires order != []
    ensures DropCRs(Flat(Block(order))) == [START] + DropCRs(Flat(Generated(order))) + [END]
  {
    StartIsOneLine();
    EndIsOneLine();
    MarkersMark();
    FlatBetween(START, Generated(order), END);
    DropBetween(START, Flat(Generated(order)), END);
  }

  /** A written block is stripped again without a trace. */
  lemma BlockVanishes(order: seq<string>)
    requires AllFree(order, 'S')
    ensures Strip(DropCRs(Flat(Block(order))), false) == []
  {
    if order != [] {
      FlatBlock(order);
      GeneratedAreLower(order);
      FlatKeepsFree(Generated(order), 'S');
      FreeLinesAreUnmarked(Flat(Generated(order)));
      MarkersMark();
      StripBetween(START, DropCRs(Flat(Generated(order))), END);
    }
  }

  /** After a rewrite, the lines outside the block are the ones written before it, each less a
      carriage return at its end; whatever the domains are. */
  lemma RewriteKeepsUsers(users: seq<string>, order: seq<string>)
    requires Unmarked(users) && AllFree(users, '\n') && AllFree(order, 'S')
    ensures Users(WriteLines(users + Block(order))) == DropCRs(users)
  {
    ReadsWhatWasWritten(users + Block(order));
    FlatConcat(users, Block(order));
    FlatOfFree(users);
    DropCRsConcat(users, Flat(Block(order)));
    DropCRsStayUnmarked(users);
    StripOutside(DropCRs(users), DropCRs(Flat(Block(order))));
    BlockVanishes(order);
  }

  // ---- The loops ------------------------------------------------------------------------------------------

  lemma WriteLinesSnoc(lines: seq<string>, line: string)
    ensures WriteLines(lines + [line]) == WriteLines(lines) + line + "\n"
  {
    if lines == [] {
      assert [line][1..] == [];
      assert WriteLines([]) == "";
    } else {
      WriteLinesSnoc(lines[1..], line);
      assert (lines + [line])[1..] == lines[1..] + [line];
      var head, tail := lines[0] + "\n", WriteLines(lines[1..]);
      assert head + (tail + line + "\n") == head + tail + line + "\n";
    }
  }

  /** The writing loop of writeHostsFile. */
  method WriteHostsFile(lines: seq<string>) returns (text: string)
    ensures text == WriteLines(lines)
  {
    text := "";
    for i := 0 to |lines|
      invariant text == WriteLines(lines[..i])
    {
      WriteLinesSnoc(lines[..i], lines[i]);
      assert lines[..i + 1] == lines[..i] + [lines[i]];
      text := text + lines[i] + "\n";
    }
    assert lines[..|lines|] == lines;
  }

  lemma StripStep(lines: seq<string>, i: nat, result: seq<string>, inBlock: bool)
    requires i < |lines|
    ensures result + Strip(lines[i..], inBlock) ==
            if Contains(lines[i], START) then result + Strip(lines[i + 1..], true)
            else if Contains(lines[i], END) then result + Strip(lines[i + 1..], false)
            else (if inBlock then result else result + [lines[i]]) + Strip(lines[i + 1..], inBlock)
  {
    assert lines[i..][0] == lines[i] && lines[i..][1..] == lines[i + 1..];
    Associative(result, [lines[i]], Strip(lines[i + 1..], inBlock));
  }

  method RemoveBlockSection(lines: seq<string>) returns (result: seq<string>)
    ensures result == Strip(lines, false)
  {
    result := [];
    var inBlock := false;
    for i := 0 to |lines|
      invariant result + Strip(lines[i..], inBlock) == Strip(lines, false)
    {
      var line := lines[i];
      StripStep(lines, i, result, inBlock);
      if Contains(line, START) {
        inBlock := true;
      } else if Contains(line, END) {
        inBlock := false;
      } else if !inBlock {
        result := result + [line];
      }
    }
  }
}
