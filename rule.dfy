/** `Table::new` (src/rule.rs), from the lines of the file onward: each
    non-blank line is a pattern and an action separated by the first space;
    the action `|` queues the pattern for the next real action. */
module Tables {
  import opened Base
  import opened Text

  /** A pattern and the action it triggers. */
  datatype Rule = Rule(pattern: string, action: string)

  /** A pattern waiting for the action of a later line. */
  datatype Pending = Pending(pattern: string, lineNumber: nat)

  datatype Table = Table(rules: seq<Rule>)

  /** A line that holds a space, read as its pattern, its action and its
      1-based number. */
  datatype Entry = Entry(pattern: string, action: string, lineNumber: nat)

  /** `splitn(2, ' ')` on the trimmed line, both parts trimmed; nothing for
      a blank line or one without a space. */
  function EntryOf(line: string, lineNumber: nat): (r: Option<Entry>)
    ensures r.Some? ==> r.value.lineNumber == lineNumber
  {
    var t := Trim(line);
    if t == [] then None
    else match IndexOf(t, ' ')
      case None => None
      case Some(p) => Some(Entry(Trim(t[..p]), Trim(t[p + 1..]), lineNumber))
  }

  /** The entries of `lines[i..]`, in order. */
  function EntriesFrom(lines: seq<string>, i: nat): (r: seq<Entry>)
    decreases |lines| - i
  {
    if i >= |lines| then []
    else match EntryOf(lines[i], i + 1)
      case None => EntriesFrom(lines, i + 1)
      case Some(e) => [e] + EntriesFrom(lines, i + 1)
  }

  /** The rules and the queue of the loop of `Table::new`. */
  datatype Scan = Scan(rules: seq<Rule>, pending: seq<Pending>)

  /** One rule per queued pattern, in queue order, all with `action`. */
  function RulesFor(pending: seq<Pending>, action: string): (r: seq<Rule>)
    ensures |r| == |pending|
    ensures forall k :: 0 <= k < |r| ==> r[k] == Rule(pending[k].pattern, action)
  {
    seq(|pending|, k requires 0 <= k < |pending| => Rule(pending[k].pattern, action))
  }

  /** One entry: `|` queues its pattern; any other action is given to the
      queued patterns and then to the entry's own, and the queue empties. */
  function TableStep(st: Scan, e: Entry): Scan
  {
    if e.action == "|" then st.(pending := st.pending + [Pending(e.pattern, e.lineNumber)])
    else Scan(st.rules + RulesFor(st.pending, e.action) + [Rule(e.pattern, e.action)], [])
  }

  /** The loop over a run of entries. */
  function Feed(st: Scan, es: seq<Entry>): Scan
    decreases |es|
  {
    if es == [] then st else Feed(TableStep(st, es[0]), es[1..])
  }

  /** `Table::new` after the read: the rules, or the error naming the
      first line of a queue no action closed. */
  function TableOf(path: string, lines: seq<string>): Result<Table>
  {
    var st := Feed(Scan([], []), EntriesFrom(lines, 0));
    if st.pending != [] then Err("Error: " + path + ":" + NatToString(st.pending[0].lineNumber))
    else Ok(Table(st.rules))
  }

  /** `Table::new`: the line loop, with the inner loop that emits the
      queued patterns. */
  method NewTable(path: string, lines: seq<string>) returns (r: Result<Table>)
    ensures r == TableOf(path, lines)
  {
    var rules: seq<Rule> := [];
    var pending: seq<Pending> := [];
    for index := 0 to |lines|
      invariant Feed(Scan(rules, pending), EntriesFrom(lines, index)) == Feed(Scan([], []), EntriesFrom(lines, 0))
    {
      var lineNumber := index + 1;
      var line := Trim(lines[index]);
      ghost var st := Scan(rules, pending);
      FeedNext(st, lines, index);
      if line == [] {
        assert EntryOf(lines[index], lineNumber) == None;
        continue;
      }
      var space := IndexOf(line, ' ');
      if space.Some? {
        var pattern := Trim(line[..space.value]);
        var action := Trim(line[space.value + 1..]);
        ghost var e := Entry(pattern, action, lineNumber);
        assert EntryOf(lines[index], lineNumber) == Some(e);
        if action == "|" {
          pending := pending + [Pending(pattern, lineNumber)];
        } else {
          if pending != [] {
            rules := EmitPending(rules, pending, action);
            pending := [];
          }
          rules := rules + [Rule(pattern, action)];
        }
        assert Scan(rules, pending) == TableStep(st, e);
      } else {
        assert EntryOf(lines[index], lineNumber) == None;
      }
    }
    if pending != [] {
      return Err("Error: " + path + ":" + NatToString(pending[0].lineNumber));
    }
    r := Ok(Table(rules));
  }

  /** One more line of the loop: its entry, if any, is fed to the state. */
  lemma FeedNext(st: Scan, lines: seq<string>, i: nat)
    requires i < |lines|
    ensures Feed(st, EntriesFrom(lines, i)) ==
      match EntryOf(lines[i], i + 1)
      case None => Feed(st, EntriesFrom(lines, i + 1))
      case Some(e) => Feed(TableStep(st, e), EntriesFrom(lines, i + 1))
  {
    match EntryOf(lines[i], i + 1)
    case None =>
    case Some(e) =>
      var rest := EntriesFrom(lines, i + 1);
      assert ([e] + rest)[0] == e && ([e] + rest)[1..] == rest;
  }

  /** The inner loop: push one rule per queued pattern. */
  method EmitPending(rules: seq<Rule>, pending: seq<Pending>, action: string) returns (r: seq<Rule>)
    ensures r == rules + RulesFor(pending, action)
  {
    r := rules;
    for k := 0 to |pending|
      invariant r == rules + RulesFor(pending[..k], action)
    {
      r := r + [Rule(pending[k].pattern, action)];
    }
    assert pending[..|pending|] == pending;
  }

  // ---------------------------------------------------------------------
  // What the table holds
  // ---------------------------------------------------------------------

  /** The action the entry at `k` ends up with: the first that is not `|`
      at or after it. */
  function NextAction(x: seq<Entry>, k: nat): Option<string>
    decreases |x| - k
  {
    if k >= |x| then None
    else if x[k].action != "|" then Some(x[k].action)
    else NextAction(x, k + 1)
  }

  /** How many entries of `x` get an action: all up to the last one whose
      action is not `|`. */
  function Settled(x: seq<Entry>): (n: nat)
    ensures n <= |x|
  {
    if x == [] then 0
    else if x[|x| - 1].action != "|" then |x|
    else Settled(x[..|x| - 1])
  }

  /** Queued patterns seen as entries, and entries seen as a queue. */
  function AsEntries(ps: seq<Pending>): (r: seq<Entry>)
    ensures |r| == |ps|
  {
    seq(|ps|, k requires 0 <= k < |ps| => Entry(ps[k].pattern, "|", ps[k].lineNumber))
  }

  function AsQueue(es: seq<Entry>): (r: seq<Pending>)
    ensures |r| == |es|
  {
    seq(|es|, k requires 0 <= k < |es| => Pending(es[k].pattern, es[k].lineNumber))
  }

  lemma {:induction false} NextActionShift(a: seq<Entry>, b: seq<Entry>, j: nat)
    ensures NextAction(a + b, |a| + j) == NextAction(b, j)
    decreases |b| - j
  {
    if j < |b| && b[j].action == "|" {
      NextActionShift(a, b, j + 1);
    }
  }

  /** Every queued entry before `h` takes `h`'s action. */
  lemma {:induction false} NextActionQueued(ps: seq<Pending>, h: Entry, t: seq<Entry>, k: nat)
    requires h.action != "|" && k <= |ps|
    ensures NextAction(AsEntries(ps) + [h] + t, k) == Some(h.action)
    decreases |ps| - k
  {
    var x := AsEntries(ps) + [h] + t;
    if k < |ps| {
      assert x[k] == AsEntries(ps)[k];
      NextActionQueued(ps, h, t, k + 1);
    } else {
      assert x[k] == h;
    }
  }

  lemma {:induction false} SettledAfter(a: seq<Entry>, t: seq<Entry>)
    requires a != [] && a[|a| - 1].action != "|"
    ensures Settled(a + t) == |a| + Settled(t)
    decreases |t|
  {
    if t == [] {
      assert a + t == a;
    } else if t[|t| - 1].action == "|" {
      assert (a + t)[..|a + t| - 1] == a + t[..|t| - 1];
      SettledAfter(a, t[..|t| - 1]);
    }
  }

  /** What stays queued after a settled prefix is what stays queued after
      the rest alone. */
  lemma SettledTail(p: seq<Entry>, h: Entry, t: seq<Entry>, x: seq<Entry>)
    requires h.action != "|" && x == p + ([h] + t)
    ensures x == (p + [h]) + t
    ensures x[Settled(x)..] == t[Settled(t)..]
  {
    assert x == (p + [h]) + t;
    SettledAfter(p + [h], t);
  }

  /** The rules from index `base` of `res` are the settled entries of `x`,
      each with its next action. */
  ghost predicate SettledRules(res: seq<Rule>, base: nat, x: seq<Entry>)
  {
    && |res| == base + Settled(x)
    && forall k :: 0 <= k < Settled(x) ==>
         NextAction(x, k).Some? && res[base + k] == Rule(x[k].pattern, NextAction(x, k).value)
  }

  /** The loop over entries, in closed form: with queue `ps` and rules
      `rules` so far, reading `es` gives every settled entry of the queue
      followed by `es` its next action, and leaves the rest queued. */
  lemma {:induction false} FeedSettles(rules: seq<Rule>, ps: seq<Pending>, es: seq<Entry>, x: seq<Entry>)
    requires x == AsEntries(ps) + es
    ensures var res := Feed(Scan(rules, ps), es);
      && SettledRules(res.rules, |rules|, x)
      && res.rules[..|rules|] == rules
      && res.pending == AsQueue(x[Settled(x)..])
    decreases |es|
  {
    if es == [] {
      assert x == AsEntries(ps);
      QueueSettlesNothing(ps);
      assert AsQueue(x) == ps;
    } else {
      var h := es[0];
      var t := es[1..];
      assert es == [h] + t;
      if h.action == "|" {
        var ps' := ps + [Pending(h.pattern, h.lineNumber)];
        assert AsEntries(ps') + t == x;
        FeedSettles(rules, ps', t, x);
      } else {
        var pre := rules + RulesFor(ps, h.action) + [Rule(h.pattern, h.action)];
        assert AsEntries([]) + t == t;
        FeedSettles(pre, [], t, t);
        var res := Feed(Scan(pre, []), t);
        SettleAction(rules, ps, h, t, res.rules);
        SettledTail(AsEntries(ps), h, t, x);
      }
    }
  }

  /** A real action settles the queue before it: the rules the queue and
      the entry receive, followed by those of the rest, are the settled
      entries of the whole. */
  lemma SettleAction(rules: seq<Rule>, ps: seq<Pending>, h: Entry, t: seq<Entry>, res: seq<Rule>)
    requires h.action != "|"
    requires var pre := rules + RulesFor(ps, h.action) + [Rule(h.pattern, h.action)];
      SettledRules(res, |pre|, t) && res[..|pre|] == pre
    ensures SettledRules(res, |rules|, AsEntries(ps) + [h] + t)
    ensures res[..|rules|] == rules
  {
    var pre := rules + RulesFor(ps, h.action) + [Rule(h.pattern, h.action)];
    var a := AsEntries(ps) + [h];
    var x := a + t;
    SettledAfter(a, t);
    assert res[..|rules|] == pre[..|rules|];
    forall k | 0 <= k < Settled(x)
      ensures NextAction(x, k).Some? && res[|rules| + k] == Rule(x[k].pattern, NextAction(x, k).value)
    {
      if k <= |ps| {
        NextActionQueued(ps, h, t, k);
        assert res[|rules| + k] == pre[|rules| + k];
        if k < |ps| {
          assert x[k] == AsEntries(ps)[k];
        } else {
          assert x[k] == h;
        }
      } else {
        var j := k - |ps| - 1;
        NextActionShift(a, t, j);
        assert x[k] == t[j];
        assert res[|rules| + k] == res[|pre| + j];
      }
    }
  }

  /** A queue alone settles nothing. */
  lemma {:induction false} QueueSettlesNothing(ps: seq<Pending>)
    ensures Settled(AsEntries(ps)) == 0
    decreases |ps|
  {
    if ps != [] {
      var front := ps[..|ps| - 1];
      assert AsEntries(ps)[..|ps| - 1] == AsEntries(front);
      QueueSettlesNothing(front);
    }
  }

  /** What `Table::new` produces, stated over the lines that hold a space:
      it succeeds exactly when the last of them has a real action; then it
      holds one rule per such line, in line order, each with the first real
      action at or after its line; otherwise the error names the first line
      of the trailing queue. */
  lemma TableContents(path: string, lines: seq<string>)
    ensures var e := EntriesFrom(lines, 0);
      var r := TableOf(path, lines);
      && (r.Ok? <==> Settled(e) == |e|)
      && (r.Ok? ==>
            && |r.value.rules| == |e|
            && forall k :: 0 <= k < |e| ==>
                 NextAction(e, k).Some? && r.value.rules[k] == Rule(e[k].pattern, NextAction(e, k).value))
      && (r.Err? ==> r.error == "Error: " + path + ":" + NatToString(e[Settled(e)].lineNumber))
  {
    var e := EntriesFrom(lines, 0);
    assert AsEntries([]) + e == e;
    FeedSettles([], [], e, e);
    var st := Feed(Scan([], []), e);
    assert SettledRules(st.rules, 0, e);
    assert |st.pending| == |e| - Settled(e);
    if st.pending != [] {
      assert st.pending[0].lineNumber == e[Settled(e)].lineNumber;
    }
  }
}
