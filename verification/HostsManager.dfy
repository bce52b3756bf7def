/** The hosts manager, the commands that drive it, and what runs of them leave in the hosts file. */
module HostsManager {
  import opened Strings
  import opened LogicalPaths
  import opened HostsFile

  datatype State = State(enabled: bool, domains: set<string>, text: string)

  /** strings.ToLower(strings.TrimSpace(domain)). */
  function Normal(domain: string): string {
    Lower(Trim(domain))
  }

  function NormalAll(ds: seq<string>): set<string> {
    set d | d in ds && d != "" :: Normal(d)
  }

  /** One order in which the map of domains may be walked. */
  ghost predicate IsOrder(order: seq<string>, domains: set<string>) {
    && (forall i, j :: 0 <= i < j < |order| ==> order[i] != order[j])
    && (forall d :: d in order <==> d in domains)
  }

  function Rewritten(text: string, order: seq<string>): string {
    WriteLines(Users(text) + Block(order))
  }

  /** A call of the manager, with the order in which it walks its domains if it writes them. */
  datatype Call =
    | SetEnabled(on: bool, order: seq<string>)
    | AddDomain(domain: string, order: seq<string>)
    | RemoveDomain(domain: string, order: seq<string>)
    | SetDomains(list: seq<string>, order: seq<string>)

  function DomainsAfter(s: State, c: Call): set<string> {
    match c
    case SetEnabled(_, _) => s.domains
    case AddDomain(domain, _) => if domain == "" then s.domains else s.domains + {Normal(domain)}
    case RemoveDomain(domain, _) => s.domains - {Normal(domain)}
    case SetDomains(list, _) => NormalAll(list)
  }

  ghost predicate Possible(s: State, c: Call) {
    IsOrder(c.order, DomainsAfter(s, c))
  }

  /** Every call that succeeds with blocking on rewrites the file; switching off removes the block. */
  ghost function Step(s: State, c: Call): State {
    if !Possible(s, c) then s else
    match c
    case SetEnabled(on, order) => s.(enabled := on, text := Rewritten(s.text, if on then order else []))
    case AddDomain(domain, order) =>
      if domain == "" then s else
      s.(domains := DomainsAfter(s, c), text := if s.enabled then Rewritten(s.text, order) else s.text)
    case RemoveDomain(_, order) =>
      s.(domains := DomainsAfter(s, c), text := if s.enabled then Rewritten(s.text, order) else s.text)
    case SetDomains(_, order) =>
      s.(domains := DomainsAfter(s, c), text := if s.enabled then Rewritten(s.text, order) else s.text)
  }

  ghost function Run(s: State, cs: seq<Call>): State {
    if cs == [] then s else Step(Run(s, cs[..|cs| - 1]), cs[|cs| - 1])
  }

  // ---- User lines survive ------------------------------------------------------------------------------

  ghost predicate LowerDomains(domains: set<string>) {
    forall d :: d in domains ==> Free(d, 'S')
  }

  /** A domain is kept without the blanks around it and with its letters in lower case. */
  lemma NormalExactly(domain: string) returns (left: string, middle: string, right: string)
    ensures domain == left + middle + right && Blank(left) && Blank(right) && Trimmed(middle)
    ensures |Normal(domain)| == |middle|
    ensures forall i :: 0 <= i < |middle| ==> Normal(domain)[i] == if 'A' <= middle[i] <= 'Z' then middle[i] - 'A' + 'a' else middle[i]
  {
    left, right := TrimExactly(domain);
    middle := Trim(domain);
  }

  lemma NormalIsLower(domain: string)
    ensures Free(Normal(domain), 'S')
  {
    var t := Trim(domain);
    assert forall i :: 0 <= i < |t| ==> Lower(t)[i] == LowerChar(t[i]) != 'S';
  }

  lemma NormalAllIsLower(list: seq<string>)
    ensures LowerDomains(NormalAll(list))
  {
    forall d | d in list ensures Free(Normal(d), 'S') {
      NormalIsLower(d);
    }
  }

  lemma StaysLower(s: State, c: Call)
    requires LowerDomains(s.domains)
    ensures LowerDomains(DomainsAfter(s, c)) && LowerDomains(Step(s, c).domains)
  {
    match c
    case SetEnabled(_, _) =>
    case AddDomain(domain, _) => NormalIsLower(domain);
    case RemoveDomain(_, _) =>
    case SetDomains(list, _) => NormalAllIsLower(list);
  }

  lemma RewrittenUsers(text: string, order: seq<string>, domains: set<string>)
    requires IsOrder(order, domains) && LowerDomains(domains)
    ensures Users(Rewritten(text, order)) == DropCRs(Users(text))
    ensures Users(Rewritten(text, [])) == DropCRs(Users(text))
  {
    UsersArePlain(text);
    RewriteKeepsUsers(Users(text), order);
    RewriteKeepsUsers(Users(text), []);
  }

  lemma NoCRIsKept(lines: seq<string>)
    ensures DropCRs(lines) == lines <==> NoCR(lines)
  {
    if DropCRs(lines) == lines {
      forall i | 0 <= i < |lines| ensures DropCR(lines[i]) == lines[i] {
        assert DropCRs(lines)[i] == lines[i];
      }
    }
  }

  lemma StepKeepsUsers(s: State, c: Call)
    requires LowerDomains(s.domains) && NoCR(Users(s.text))
    ensures Users(Step(s, c).text) == Users(s.text)
  {
    StaysLower(s, c);
    NoCRIsKept(Users(s.text));
    if Possible(s, c) {
      RewrittenUsers(s.text, c.order, DomainsAfter(s, c));
    }
  }

  lemma {:induction false} RunKeepsUsers(s: State, cs: seq<Call>)
    requires LowerDomains(s.domains) && NoCR(Users(s.text))
    ensures Users(Run(s, cs).text) == Users(s.text) && LowerDomains(Run(s, cs).domains)
  {
    if cs != [] {
      var t := Run(s, cs[..|cs| - 1]);
      RunKeepsUsers(s, cs[..|cs| - 1]);
      StepKeepsUsers(t, cs[|cs| - 1]);
      StaysLower(t, cs[|cs| - 1]);
    }
  }

  /** The manager as GetHostsManager makes it. */
  function Fresh(text: string): State {
    State(false, {}, text)
  }

  /** User lines, exactly: the lines outside the block section stay what they were through every run
      of calls, whatever the domains, if and only if none of them ends in a carriage return. */
  lemma UserLinesSurviveExactly(text: string)
    ensures (forall cs :: Users(Run(Fresh(text), cs).text) == Users(text)) <==> NoCR(Users(text))
  {
    if NoCR(Users(text)) {
      forall cs ensures Users(Run(Fresh(text), cs).text) == Users(text) {
        RunKeepsUsers(Fresh(text), cs);
      }
    } else {
      SwitchingOffDropsCRs(text);
      NoCRIsKept(Users(text));
    }
  }

  lemma SwitchingOffDropsCRs(text: string)
    ensures Users(Run(Fresh(text), [SetEnabled(false, [])]).text) == DropCRs(Users(text))
  {
    var off := SetEnabled(false, []);
    RunOne(Fresh(text), off);
    assert Possible(Fresh(text), off);
    RewrittenUsers(text, [], {});
  }

  // ---- Commands ------------------------------------------------------------------------------------------

  datatype Rule = Rule(kind: string, category: string, domain: string, enabled: bool)

  datatype Status = NoStatus | Status(enabled: bool)

  datatype Command = Command(action: string, rules: seq<Rule>, status: Status)

  /** The command switches blocking on. */
  predicate Blocks(c: Command) {
    (c.action == "sync" || c.action == "apply") && (c.status.NoStatus? || c.status.enabled)
  }

  function RuleDomains(r: Rule, categories: string -> seq<string>): set<string> {
    if !r.enabled then {}
    else if r.kind == "category" then set d | d in categories(r.category)
    else if r.kind == "domain" && r.domain != "" then {r.domain}
    else {}
  }

  function Collected(rules: seq<Rule>, categories: string -> seq<string>): set<string> {
    if rules == [] then {} else Collected(rules[..|rules| - 1], categories) + RuleDomains(rules[|rules| - 1], categories)
  }

  /** The domains that the command alone determines. */
  function Target(c: Command, categories: string -> seq<string>): set<string> {
    if Blocks(c) then set d | d in Collected(c.rules, categories) && d != "" :: Normal(d) else {}
  }

  /** What a recognised command asks of the manager. */
  ghost predicate Realises(s: State, calls: seq<Call>, c: Command, categories: string -> seq<string>) {
    if Blocks(c) then
      && |calls| == 2 && calls[0].SetDomains? && calls[1].SetEnabled? && calls[1].on
      && (forall d :: d in calls[0].list <==> d in Collected(c.rules, categories))
      && Possible(s, calls[0]) && Possible(Step(s, calls[0]), calls[1])
    else
      |calls| == 1 && calls[0].SetEnabled? && !calls[0].on && Possible(s, calls[0])
  }

  lemma RunOne(s: State, a: Call)
    ensures Run(s, [a]) == Step(s, a)
  {
    assert [a][..0] == [];
    assert Run(s, []) == s;
  }

  lemma RunTwo(s: State, a: Call, b: Call)
    ensures Run(s, [a, b]) == Step(Step(s, a), b)
  {
    assert [a, b][..1] == [a];
    RunOne(s, a);
  }

  lemma SetThenSwitchOn(s: State, set1: Call, on: Call)
    requires LowerDomains(s.domains) && NoCR(Users(s.text))
    requires set1.SetDomains? && Possible(s, set1) && on.SetEnabled? && on.on && Possible(Step(s, set1), on)
    ensures IsOrder(on.order, NormalAll(set1.list))
    ensures Run(s, [set1, on]).text == WriteLines(Users(s.text) + Block(on.order))
  {
    RunTwo(s, set1, on);
    StepKeepsUsers(s, set1);
  }

  lemma SwitchOff(s: State, off: Call)
    requires off.SetEnabled? && !off.on && Possible(s, off)
    ensures Run(s, [off]).text == WriteLines(Users(s.text) + Block([]))
  {
    RunOne(s, off);
  }

  lemma ListedIsTarget(list: seq<string>, c: Command, categories: string -> seq<string>)
    requires Blocks(c) && forall d :: d in list <==> d in Collected(c.rules, categories)
    ensures NormalAll(list) == Target(c, categories)
  {
  }

  lemma CommandDecides(s: State, calls: seq<Call>, c: Command, categories: string -> seq<string>) returns (order: seq<string>)
    requires LowerDomains(s.domains) && NoCR(Users(s.text))
    requires Realises(s, calls, c, categories)
    ensures IsOrder(order, Target(c, categories)) && Run(s, calls).text == WriteLines(Users(s.text) + Block(order))
  {
    if Blocks(c) {
      assert calls == [calls[0], calls[1]];
      SetThenSwitchOn(s, calls[0], calls[1]);
      ListedIsTarget(calls[0].list, c, categories);
      order := calls[1].order;
    } else {
      assert calls == [calls[0]];
      SwitchOff(s, calls[0]);
      order := [];
    }
  }

  /** An enabled rule picks this domain, through its category or by itself. */
  predicate Picks(r: Rule, domain: string, categories: string -> seq<string>) {
    r.enabled && ((r.kind == "category" && domain in categories(r.category))
                  || (r.kind == "domain" && domain == r.domain && domain != ""))
  }

  /** What is collected is exactly what the enabled rules pick. */
  lemma {:induction false} CollectedExactly(rules: seq<Rule>, categories: string -> seq<string>, domain: string)
    ensures domain in Collected(rules, categories) <==> exists r :: r in rules && Picks(r, domain, categories)
  {
    if rules != [] {
      var front, last := rules[..|rules| - 1], rules[|rules| - 1];
      CollectedExactly(front, categories, domain);
      assert rules == front + [last];
      if Picks(last, domain, categories) {
        assert last in rules;
      }
    }
  }

  lemma CollectedArePicked(rules: seq<Rule>, categories: string -> seq<string>)
    ensures forall d :: d in Collected(rules, categories) <==> exists r :: r in rules && Picks(r, d, categories)
  {
    forall d ensures d in Collected(rules, categories) <==> exists r :: r in rules && Picks(r, d, categories) {
      CollectedExactly(rules, categories, d);
    }
  }

  /** The command asks for blocking this domain: it is a sync or apply that does not switch blocking off, and
      an enabled rule picks a domain that reads so when trimmed and in lower case. */
  ghost predicate AsksFor(c: Command, categories: string -> seq<string>, domain: string) {
    && (c.action == "sync" || c.action == "apply") && c.status != Status(false)
    && exists r, d :: r in c.rules && Picks(r, d, categories) && d != "" && Normal(d) == domain
  }

  lemma TargetExactly(c: Command, categories: string -> seq<string>, domain: string)
    ensures domain in Target(c, categories) <==> AsksFor(c, categories, domain)
  {
    if domain in Target(c, categories) {
      var d :| d in Collected(c.rules, categories) && d != "" && Normal(d) == domain;
      CollectedExactly(c.rules, categories, d);
      var r :| r in c.rules && Picks(r, d, categories);
      assert AsksFor(c, categories, domain);
    }
    if AsksFor(c, categories, domain) {
      var r, d :| r in c.rules && Picks(r, d, categories) && d != "" && Normal(d) == domain;
      CollectedExactly(c.rules, categories, d);
    }
  }

  /** Every domain that the command asks for, once, and no other. */
  ghost predicate ListsAsked(order: seq<string>, c: Command, categories: string -> seq<string>) {
    && (forall i, j :: 0 <= i < j < |order| ==> order[i] != order[j])
    && (forall d :: d in order <==> AsksFor(c, categories, d))
  }

  lemma TargetIsListed(order: seq<string>, c: Command, categories: string -> seq<string>)
    requires IsOrder(order, Target(c, categories))
    ensures ListsAsked(order, c, categories)
  {
    forall d ensures d in order <==> AsksFor(c, categories, d) {
      TargetExactly(c, categories, d);
    }
  }

  /** Hosts runs: whatever calls and commands came before, after a sync, apply or remove the file is the
      original lines outside the block, then the block of exactly the domains that this command asks for,
      each once and in some order, or no block if there are none. */
  lemma FileAfterCommand(text: string, cs: seq<Call>, calls: seq<Call>, c: Command, categories: string -> seq<string>)
    requires NoCR(Users(text)) && Realises(Run(Fresh(text), cs), calls, c, categories)
    ensures exists order :: ListsAsked(order, c, categories)
                            && Run(Run(Fresh(text), cs), calls).text == WriteLines(Users(text) + Block(order))
  {
    RunKeepsUsers(Fresh(text), cs);
    var order := CommandDecides(Run(Fresh(text), cs), calls, c, categories);
    TargetIsListed(order, c, categories);
  }

  /** The line points a domain, or its www name unless it has one already, to the own host. */
  predicate Redirects(line: string, domain: string) {
    line == "127.0.0.1 " + domain || (line == "127.0.0.1 www." + domain && !("www." <= domain))
  }

  /** The lines of a block are those of its domains, whatever the order. */
  lemma {:induction false} GeneratedIsExact(order: seq<string>, line: string)
    ensures line in Generated(order) <==> exists d :: d in order && Redirects(line, d)
  {
    if order != [] {
      var front, last := order[..|order| - 1], order[|order| - 1];
      GeneratedIsExact(front, line);
      assert order == front + [last];
      assert line in DomainLines(last) <==> Redirects(line, last);
    }
  }

  /** Between its two markers a block has exactly the lines of its domains; without domains it is empty. */
  lemma BlockIsExact(order: seq<string>)
    ensures order == [] ==> Block(order) == []
    ensures order != [] ==>
              var lines := Block(order);
              && |lines| >= 2 && lines[0] == START && lines[|lines| - 1] == END
              && var inner := lines[1..|lines| - 1];
                 forall line :: line in inner <==> exists d :: d in order && Redirects(line, d)
  {
    if order != [] {
      assert Block(order)[1..|Block(order)| - 1] == Generated(order);
      forall line ensures line in Generated(order) <==> exists d :: d in order && Redirects(line, d) {
        GeneratedIsExact(order, line);
      }
    }
  }

  // ---- What the file shows after any calls -----------------------------------------------------------------

  ghost predicate AllPossible(s: State, cs: seq<Call>) {
    cs == [] || (AllPossible(s, cs[..|cs| - 1]) && Possible(Run(s, cs[..|cs| - 1]), cs[|cs| - 1]))
  }

  /** The call puts the domain on the list, or takes it off. */
  ghost predicate Puts(c: Call, domain: string) {
    || (c.AddDomain? && c.domain != "" && Normal(c.domain) == domain)
    || (c.SetDomains? && exists d :: d in c.list && d != "" && Normal(d) == domain)
  }

  ghost predicate Drops(c: Call, domain: string) {
    (c.RemoveDomain? && Normal(c.domain) == domain) || (c.SetDomains? && !Puts(c, domain))
  }

  /** Call `i` put the domain on the list, and no later call took it off. */
  ghost predicate PutStands(cs: seq<Call>, i: int, domain: string) {
    0 <= i < |cs| && Puts(cs[i], domain) && forall j :: i < j < |cs| ==> !Drops(cs[j], domain)
  }

  /** Call `i` is the last one that switches blocking. */
  ghost predicate SwitchStands(cs: seq<Call>, i: int, on: bool) {
    0 <= i < |cs| && cs[i].SetEnabled? && cs[i].on == on && forall j :: i < j < |cs| ==> !cs[j].SetEnabled?
  }

  lemma StepDomains(s: State, c: Call, domain: string)
    requires Possible(s, c)
    ensures domain in Step(s, c).domains <==> Puts(c, domain) || (domain in s.domains && !Drops(c, domain))
  {
  }

  lemma LastPutStands(cs: seq<Call>, i: int, domain: string)
    requires cs != []
    ensures var front := cs[..|cs| - 1];
            PutStands(cs, i, domain) <==>
            if i == |front| then Puts(cs[i], domain) else PutStands(front, i, domain) && !Drops(cs[|front|], domain)
  {
    var front := cs[..|cs| - 1];
    assert cs == front + [cs[|front|]];
    if i != |front| && PutStands(cs, i, domain) {
      assert !Drops(cs[|front|], domain);
      forall j | i < j < |front| ensures !Drops(front[j], domain) {
        assert front[j] == cs[j];
      }
    }
  }

  /** The list, exactly: a domain is blocked if and only if some call put it there and none since took it off. */
  lemma {:induction false} DomainsExactly(text: string, cs: seq<Call>, domain: string)
    requires AllPossible(Fresh(text), cs)
    ensures domain in Run(Fresh(text), cs).domains <==> exists i :: PutStands(cs, i, domain)
  {
    if cs != [] {
      var front, last := cs[..|cs| - 1], cs[|cs| - 1];
      DomainsExactly(text, front, domain);
      StepDomains(Run(Fresh(text), front), last, domain);
      forall i ensures PutStands(cs, i, domain) <==>
            if i == |front| then Puts(last, domain) else PutStands(front, i, domain) && !Drops(last, domain) {
        LastPutStands(cs, i, domain);
      }
      assert !PutStands(front, |front|, domain);
      if Puts(last, domain) {
        assert PutStands(cs, |front|, domain);
      } else if domain in Run(Fresh(text), front).domains && !Drops(last, domain) {
        var i :| PutStands(front, i, domain);
        assert PutStands(cs, i, domain);
      }
    }
  }

  lemma LastSwitchStands(cs: seq<Call>, i: int, on: bool)
    requires cs != []
    ensures var front := cs[..|cs| - 1];
            SwitchStands(cs, i, on) <==>
            if i == |front| then cs[i].SetEnabled? && cs[i].on == on
            else SwitchStands(front, i, on) && !cs[|front|].SetEnabled?
  {
    var front := cs[..|cs| - 1];
    assert cs == front + [cs[|front|]];
    if i != |front| && SwitchStands(cs, i, on) {
      assert !cs[|front|].SetEnabled?;
      forall j | i < j < |front| ensures !front[j].SetEnabled? {
        assert front[j] == cs[j];
      }
    }
  }

  /** The last switch of the calls, if there is one. */
  ghost predicate SwitchedTo(cs: seq<Call>, on: bool) {
    exists i :: SwitchStands(cs, i, on)
  }

  lemma LastSwitch(cs: seq<Call>, on: bool)
    requires cs != []
    ensures var front, last := cs[..|cs| - 1], cs[|cs| - 1];
            SwitchedTo(cs, on) <==> if last.SetEnabled? then last.on == on else SwitchedTo(front, on)
  {
    var front, last := cs[..|cs| - 1], cs[|cs| - 1];
    forall i ensures SwitchStands(cs, i, on) <==>
          if i == |front| then last.SetEnabled? && last.on == on else SwitchStands(front, i, on) && !last.SetEnabled? {
      LastSwitchStands(cs, i, on);
    }
    assert !SwitchStands(front, |front|, on);
    if last.SetEnabled? && last.on == on {
      assert SwitchStands(cs, |front|, on);
    } else if SwitchedTo(front, on) && !last.SetEnabled? {
      var i :| SwitchStands(front, i, on);
      assert SwitchStands(cs, i, on);
    }
  }

  ghost predicate ShowsBlock(text: string, now: State, order: seq<string>) {
    IsOrder(order, now.domains) && now.text == WriteLines(Users(text) + Block(order))
  }

  /** The file is the original one until blocking is first switched; then it has the original lines outside
      the block and, while blocking is on, the block of the present list. */
  ghost predicate FileShows(text: string, now: State, on: bool, off: bool) {
    && (now.enabled <==> on)
    && (on ==> exists order :: ShowsBlock(text, now, order))
    && (!on ==> now.text == if off then WriteLines(Users(text)) else text)
  }

  lemma SwitchShows(text: string, s: State, c: Call)
    requires c.SetEnabled? && Possible(s, c) && Users(s.text) == Users(text)
    ensures FileShows(text, Step(s, c), c.on, !c.on)
  {
    if c.on {
      assert ShowsBlock(text, Step(s, c), c.order);
    } else {
      assert Users(text) + Block([]) == Users(text);
    }
  }

  lemma OtherCallShows(text: string, s: State, c: Call, off: bool)
    requires !c.SetEnabled? && Possible(s, c) && Users(s.text) == Users(text)
    requires FileShows(text, s, s.enabled, off)
    ensures FileShows(text, Step(s, c), s.enabled, off)
  {
    if s.enabled {
      if c.AddDomain? && c.domain == "" {
        assert Step(s, c) == s;
      } else {
        assert ShowsBlock(text, Step(s, c), c.order);
      }
    }
  }

  /** After any calls, in any order, the file shows what the calls say. */
  lemma {:induction false} FileShowsDomains(text: string, cs: seq<Call>)
    requires NoCR(Users(text)) && AllPossible(Fresh(text), cs)
    ensures FileShows(text, Run(Fresh(text), cs), SwitchedTo(cs, true), SwitchedTo(cs, false))
  {
    if cs != [] {
      var front := cs[..|cs| - 1];
      FileShowsDomains(text, front);
      RunKeepsUsers(Fresh(text), front);
      if cs[|cs| - 1].SetEnabled? {
        SwitchShows(text, Run(Fresh(text), front), cs[|cs| - 1]);
      } else {
        OtherCallShows(text, Run(Fresh(text), front), cs[|cs| - 1], SwitchedTo(front, false));
      }
      LastSwitch(cs, true);
      LastSwitch(cs, false);
    }
  }

  // ---- The manager on its own fields ----------------------------------------------------------------------

  /** Walking the map: every domain once, in an order of its own. */
  method BlockLines(domains: set<string>) returns (lines: seq<string>, ghost order: seq<string>)
    ensures IsOrder(order, domains) && lines == Block(order)
  {
    lines, order := [], [];
    if domains == {} { return; }
    lines := [START];
    var rest := domains;
    while rest != {}
      invariant rest <= domains
      invariant IsOrder(order, domains - rest)
      invariant lines == [START] + Generated(order)
      decreases |rest|
    {
      var domain :| domain in rest;
      lines := lines + ["127.0.0.1 " + domain] + (if "www." <= domain then [] else ["127.0.0.1 www." + domain]);
      GeneratedSnoc(order, domain);
      ghost var longer := order + [domain];
      assert forall d :: d in longer <==> d in order || d == domain;
      order, rest := longer, rest - {domain};
    }
    lines := lines + [END];
  }

  lemma GeneratedSnoc(order: seq<string>, domain: string)
    ensures [START] + Generated(order + [domain]) ==
            [START] + Generated(order) + ["127.0.0.1 " + domain] + (if "www." <= domain then [] else ["127.0.0.1 www." + domain])
  {
    assert (order + [domain])[..|order|] == order;
  }

  class Manager {
    var enabled: bool
    var domains: set<string>
    var text: string

    constructor (text: string)
      ensures View() == Fresh(text)
    {
      enabled, domains, this.text := false, {}, text;
    }

    ghost function View(): State
      reads this
    {
      State(enabled, domains, text)
    }

    method ApplyBlocks() returns (ghost order: seq<string>)
      modifies this`text
      ensures IsOrder(order, domains) && text == Rewritten(old(text), order)
    {
      var content := RemoveBlockSection(ReadLines(text));
      var lines;
      lines, order := BlockLines(domains);
      text := WriteHostsFile(content + lines);
    }

    method RemoveBlocks()
      modifies this`text
      ensures text == Rewritten(old(text), [])
    {
      var content := RemoveBlockSection(ReadLines(text));
      assert content + Block([]) == content;
      text := WriteHostsFile(content);
    }

    method SetEnabled(on: bool) returns (ghost order: seq<string>)
      modifies this
      ensures Possible(old(View()), Call.SetEnabled(on, order))
      ensures View() == Step(old(View()), Call.SetEnabled(on, order))
    {
      enabled := on;
      if on {
        order := ApplyBlocks();
      } else {
        RemoveBlocks();
        order := AnyOrder(domains);
      }
    }

    method AddDomain(domain: string) returns (ok: bool, ghost order: seq<string>)
      modifies this
      ensures ok <==> domain != ""
      ensures ok ==> Possible(old(View()), Call.AddDomain(domain, order))
      ensures View() == Step(old(View()), Call.AddDomain(domain, order))
    {
      order := [];
      if domain == "" { return false, order; }
      ok := true;
      domains := domains + {Normal(domain)};
      order := AnyOrder(domains);
      if enabled {
        order := ApplyBlocks();
      }
    }

    method RemoveDomain(domain: string) returns (ghost order: seq<string>)
      modifies this
      ensures Possible(old(View()), Call.RemoveDomain(domain, order))
      ensures View() == Step(old(View()), Call.RemoveDomain(domain, order))
    {
      domains := domains - {Normal(domain)};
      order := AnyOrder(domains);
      if enabled {
        order := ApplyBlocks();
      }
    }

    method SetDomains(list: seq<string>) returns (ghost order: seq<string>)
      modifies this
      ensures Possible(old(View()), Call.SetDomains(list, order))
      ensures View() == Step(old(View()), Call.SetDomains(list, order))
    {
      domains := {};
      for i := 0 to |list|
        invariant domains == NormalAll(list[..i]) && text == old(text) && enabled == old(enabled)
      {
        NormalAllNext(list, i);
        if list[i] != "" {
          domains := domains + {Normal(list[i])};
        }
      }
      assert list[..|list|] == list;
      order := AnyOrder(domains);
      if enabled {
        order := ApplyBlocks();
      }
    }

    /** blockWebsiteHandler.HandleOnce. */
    method HandleOnce(c: Command, categories: string -> seq<string>) returns (ok: bool, ghost calls: seq<Call>)
      modifies this
      ensures ok <==> c.action == "sync" || c.action == "apply" || c.action == "remove"
      ensures !ok ==> View() == old(View())
      ensures ok ==> Realises(old(View()), calls, c, categories) && View() == Run(old(View()), calls)
    {
      ghost var s, order := View(), [];
      if c.action == "sync" || c.action == "apply" {
        if c.status.Status? && !c.status.enabled {
          order := SetEnabled(false);
          calls := [Call.SetEnabled(false, order)];
          RunOne(s, calls[0]);
          return true, calls;
        }
        var list := CollectDomains(c.rules, categories);
        order := SetDomains(list);
        ghost var first := Call.SetDomains(list, order);
        order := SetEnabled(true);
        calls := [first, Call.SetEnabled(true, order)];
        RunTwo(s, calls[0], calls[1]);
        return true, calls;
      } else if c.action == "remove" {
        order := SetEnabled(false);
        calls := [Call.SetEnabled(false, order)];
        RunOne(s, calls[0]);
        return true, calls;
      }
      ok, calls := false, [];
    }
  }

  lemma NormalAllNext(list: seq<string>, i: nat)
    requires i < |list|
    ensures NormalAll(list[..i + 1]) == NormalAll(list[..i]) + if list[i] != "" then {Normal(list[i])} else {}
  {
    assert list[..i + 1] == list[..i] + [list[i]];
  }

  /** The rules' domains as a list, in the order in which the collecting map is walked. */
  method CollectDomains(rules: seq<Rule>, categories: string -> seq<string>) returns (list: seq<string>)
    ensures IsOrder(list, Collected(rules, categories))
    ensures forall d :: d in list <==> exists r :: r in rules && Picks(r, d, categories)
  {
    var toBlock: set<string> := {};
    for i := 0 to |rules|
      invariant toBlock == Collected(rules[..i], categories)
    {
      assert rules[..i + 1][..i] == rules[..i];
      var rule := rules[i];
      if rule.enabled {
        if rule.kind == "category" {
          toBlock := toBlock + set d | d in categories(rule.category);
        } else if rule.kind == "domain" && rule.domain != "" {
          toBlock := toBlock + {rule.domain};
        }
      }
    }
    assert rules[..|rules|] == rules;
    list := Walk(toBlock);
    CollectedArePicked(rules, categories);
  }

  method Walk(domains: set<string>) returns (list: seq<string>)
    ensures IsOrder(list, domains)
  {
    list := [];
    var rest := domains;
    while rest != {}
      invariant rest <= domains && IsOrder(list, domains - rest)
      decreases |rest|
    {
      var domain :| domain in rest;
      ghost var longer := list + [domain];
      assert forall d :: d in longer <==> d in list || d == domain;
      list, rest := list + [domain], rest - {domain};
    }
  }

  lemma AnyOrder(domains: set<string>) returns (order: seq<string>)
    ensures IsOrder(order, domains)
    decreases |domains|
  {
    if domains == {} {
      order := [];
    } else {
      var domain :| domain in domains;
      var rest := AnyOrder(domains - {domain});
      order := rest + [domain];
      assert forall d :: d in order <==> d in rest || d == domain;
    }
  }
}
