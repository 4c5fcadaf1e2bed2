/** The pure parts of the command handlers: taking the script out of an `/awk`
    message, rendering the `/all` listing, removing one entry for `/del`, and
    choosing which results of an evaluation reach the user. */
module Commands {
  import opened Text
  import opened Runner

  // ---------------------------------------------------------------------------
  // `/awk`: the script text

  const AwkCommand := "/awk"
  const LeftQuote := "“"
  const RightQuote := "”"
  const StraightQuote := "\""

  /** The script registered by `/awk`: the first `/awk` removed, then the first
      left and the first right curly quote each turned into a straight one. */
  function ExtractScript(text: string): (r: string)
    ensures !Occurs(text, AwkCommand) && !Occurs(text, LeftQuote) && !Occurs(text, RightQuote)
      ==> r == text
  {
    ReplaceFirst(ReplaceFirst(ReplaceFirst(text, AwkCommand, ""), LeftQuote, StraightQuote),
                 RightQuote, StraightQuote)
  }

  /** Replacing a one-character pattern that `x` does not contain hits the
      character right after `x`. */
  lemma ReplaceCharAfter(x: string, q: char, y: string, rep: string)
    requires q !in x
    ensures ReplaceFirst(x + [q] + y, [q], rep) == x + rep + y
  {
    var s := x + [q] + y;
    assert s[|x|..|x| + 1] == [q];
    forall j | 0 <= j < |x| ensures !OccursAt(s, [q], j) {
      assert s[j..j + 1] == [x[j]];
    }
    assert IsFirstOccurrence(s, [q], |x|);
    assert s[..|x|] == x && s[|x| + 1..] == y;
  }

  /** A one-character pattern occurs only where its character does. */
  lemma AbsentChar(x: string, q: char)
    requires q !in x
    ensures !Occurs(x, [q])
  {
    forall i | 0 <= i <= |x| ensures !OccursAt(x, [q], i) {
      if i + 1 <= |x| {
        assert x[i..i + 1] == [x[i]];
      }
    }
  }

  /** The three replacements of `ExtractScript`, one at a time. */
  lemma ExtractScriptSteps(text: string, s1: string, s2: string, s3: string)
    requires ReplaceFirst(text, AwkCommand, "") == s1
    requires ReplaceFirst(s1, LeftQuote, StraightQuote) == s2
    requires ReplaceFirst(s2, RightQuote, StraightQuote) == s3
    ensures ExtractScript(text) == s3
  {
  }

  /** A command whose body has no curly quotes registers exactly that body. */
  lemma ExtractScriptOfCommand(body: string)
    requires '“' !in body && '”' !in body
    ensures ExtractScript(AwkCommand + body) == body
  {
    ReplaceLeading(AwkCommand, "", body);
    AbsentChar(body, '“');
    AbsentChar(body, '”');
    ExtractScriptSteps(AwkCommand + body, body, body, body);
  }

  /** Only the first curly pair is straightened: whatever follows the first right
      quote after the first left quote, other curly quotes included, is kept as is. */
  lemma ExtractScriptFirstQuotesOnly(a: string, b: string, c: string)
    requires '“' !in a && '”' !in a && '”' !in b
    ensures ExtractScript(AwkCommand + a + LeftQuote + b + RightQuote + c)
         == a + StraightQuote + b + StraightQuote + c
  {
    var text := AwkCommand + a + LeftQuote + b + RightQuote + c;
    var s1 := a + ['“'] + (b + RightQuote + c);
    assert text == AwkCommand + s1;
    ReplaceLeading(AwkCommand, "", s1);
    ReplaceCharAfter(a, '“', b + RightQuote + c, StraightQuote);
    var pre := a + StraightQuote + b;
    var s2 := pre + ['”'] + c;
    assert a + StraightQuote + (b + RightQuote + c) == s2;
    assert '”' !in pre;
    ReplaceCharAfter(pre, '”', c, StraightQuote);
    assert pre + StraightQuote + c == a + StraightQuote + b + StraightQuote + c;
    ExtractScriptSteps(text, s1, s2, pre + StraightQuote + c);
  }

  // ---------------------------------------------------------------------------
  // `/all`: the listing

  const EmptyListing := "You currently don't have any scripts."
  const ListingHeader := "Your scripts:\n\n"

  /** One line of the listing: the index, a dot, the script, a blank line. */
  function Entry(i: nat, script: string): (e: string) {
    NatToString(i) + ". " + script + "\n\n"
  }

  /** An entry reads back as its index's digits, `. `, the script and a blank
      line, so entries for different indices differ. */
  lemma EntryShape(i: nat, script: string)
    ensures var e, k := Entry(i, script), |NatToString(i)|;
      |e| == k + |script| + 4 && e[..k] == NatToString(i) && e[k..k + 2] == ". "
      && e[k + 2..k + 2 + |script|] == script && e[|e| - 2..] == "\n\n"
  {
  }

  /** The entries of a whole list, built from the last one backwards. */
  function Entries(scripts: seq<string>): (body: string) {
    if scripts == [] then ""
    else Entries(scripts[..|scripts| - 1]) + Entry(|scripts| - 1, scripts[|scripts| - 1])
  }

  /** Reference reading of the listing body: the entry for index `k`, then those
      for the following indices. */
  function EntriesFrom(k: nat, scripts: seq<string>): (body: string)
    decreases |scripts|
  {
    if scripts == [] then "" else Entry(k, scripts[0]) + EntriesFrom(k + 1, scripts[1..])
  }

  /** The whole `/all` reply. */
  function ListingMessage(scripts: seq<string>): (msg: string)
    ensures scripts == [] ==> msg == EmptyListing
    ensures scripts != [] ==> exists body :: msg == ListingHeader + body
  {
    if |scripts| == 0 then EmptyListing else ListingHeader + Entries(scripts)
  }

  /** A listing body splits where the list splits; indices carry on across the cut. */
  lemma {:induction false} EntriesFromAppend(k: nat, a: seq<string>, b: seq<string>)
    ensures EntriesFrom(k, a + b) == EntriesFrom(k, a) + EntriesFrom(k + |a|, b)
    decreases |a|
  {
    if a != [] {
      assert (a + b)[1..] == a[1..] + b;
      EntriesFromAppend(k + 1, a[1..], b);
    } else {
      assert a + b == b;
    }
  }

  /** The listing body holds the entries for indices 0, 1, ... in insertion order. */
  lemma {:induction false} EntriesInOrder(scripts: seq<string>)
    ensures Entries(scripts) == EntriesFrom(0, scripts)
    decreases |scripts|
  {
    if scripts != [] {
      var n := |scripts| - 1;
      var init := scripts[..n];
      EntriesInOrder(init);
      assert scripts == init + [scripts[n]];
      EntriesFromAppend(0, init, [scripts[n]]);
      assert EntriesFrom(n, [scripts[n]]) == Entry(n, scripts[n]) + EntriesFrom(n + 1, []);
    }
  }

  /** Entry `i` of a non-empty listing is `i. scripts[i]`, between the entries of
      the scripts before it and those after it. */
  lemma ListingEntryAt(scripts: seq<string>, i: nat)
    requires i < |scripts|
    ensures ListingMessage(scripts)
         == ListingHeader + (EntriesFrom(0, scripts[..i])
                             + (Entry(i, scripts[i]) + EntriesFrom(i + 1, scripts[i + 1..])))
  {
    var before, rest, after := scripts[..i], scripts[i..], scripts[i + 1..];
    assert scripts == before + rest;
    assert rest[1..] == after;
    var head, entry, tail := EntriesFrom(0, before), Entry(i, scripts[i]), EntriesFrom(i + 1, after);
    assert EntriesFrom(i, rest) == entry + tail;
    EntriesInOrder(scripts);
    EntriesFromAppend(0, before, rest);
    assert Entries(scripts) == head + (entry + tail);
    assert |scripts| != 0;
  }

  /** After one script `s` is added, the listing shows exactly one entry, index 0. */
  lemma ListingOfOne(s: string)
    ensures ListingMessage([s]) == ListingHeader + "0. " + s + "\n\n"
  {
    assert NatToString(0) == "0" by {
      assert DigitChar(0) == '0';
    }
    assert "0" + ". " == "0. ";
    var e := Entry(0, s);
    assert e == "0. " + s + "\n\n";
    assert [s][..0] == [];
    assert Entries([s]) == e;
  }

  /** The "no scripts" reply is given exactly when the list is empty. */
  lemma ListingEmptyIff(scripts: seq<string>)
    ensures ListingMessage(scripts) == EmptyListing <==> scripts == []
  {
    if scripts != [] {
      var m := ListingMessage(scripts);
      assert m[3] == ListingHeader[3];
      assert EmptyListing[3] != ListingHeader[3];
    }
  }

  /** The `/all` loop: the header, then one entry per script, in index order. */
  method FormatScripts(scripts: seq<string>) returns (msg: string)
    ensures msg == ListingHeader + EntriesFrom(0, scripts)
    ensures scripts != [] ==> msg == ListingMessage(scripts)
  {
    msg := ListingHeader;
    for i := 0 to |scripts|
      invariant msg == ListingHeader + Entries(scripts[..i])
    {
      assert scripts[..i + 1][..i] == scripts[..i];
      msg := msg + Entry(i, scripts[i]);
    }
    assert scripts[..|scripts|] == scripts;
    EntriesInOrder(scripts);
  }

  // ---------------------------------------------------------------------------
  // `/del`: removing one entry

  /** `splice(index, 1)` on an index inside the list: that entry goes, the entries
      before it keep their index and the entries after it move down by one. */
  function RemoveAt(scripts: seq<string>, index: nat): (r: seq<string>)
    requires index < |scripts|
    ensures |r| == |scripts| - 1
    ensures forall j :: 0 <= j < index ==> r[j] == scripts[j]
    ensures forall j :: index <= j < |r| ==> r[j] == scripts[j + 1]
    ensures multiset(r) + multiset{scripts[index]} == multiset(scripts)
  {
    assert scripts == scripts[..index] + [scripts[index]] + scripts[index + 1..];
    scripts[..index] + scripts[index + 1..]
  }

  // ---------------------------------------------------------------------------
  // Evaluation of an ordinary message

  /** One call of the helper: the script and the input it is run on. */
  type Call = (string, string)

  /** A result is forwarded to the user when the run did not fail and printed something. */
  predicate Delivered(r: ExecResult) {
    !r.err && r.stdout != ""
  }

  /** What each call returns from the interpreter. */
  function Outcomes(calls: seq<Call>, gawk: Interpreter): (rs: seq<ExecResult>)
    ensures |rs| == |calls|
    ensures forall i :: 0 <= i < |calls| ==> rs[i] == gawk(calls[i].0, calls[i].1)
  {
    if calls == [] then []
    else
      var n := |calls| - 1;
      Outcomes(calls[..n], gawk) + [gawk(calls[n].0, calls[n].1)]
  }

  /** The stdout of every delivered result, in the order of the results. */
  function Forwarded(rs: seq<ExecResult>): (out: seq<string>)
    ensures |out| <= |rs|
    ensures forall k :: 0 <= k < |out| ==> out[k] != ""
  {
    if rs == [] then []
    else
      var n := |rs| - 1;
      Forwarded(rs[..n]) + (if Delivered(rs[n]) then [rs[n].stdout] else [])
  }

  /** An output reaches the user exactly when some run succeeded and printed it. */
  lemma {:induction false} ForwardedMembership(rs: seq<ExecResult>, x: string)
    ensures x in Forwarded(rs) <==>
      exists i :: 0 <= i < |rs| && Delivered(rs[i]) && rs[i].stdout == x
    decreases |rs|
  {
    if rs != [] {
      var n := |rs| - 1;
      ForwardedMembership(rs[..n], x);
      if exists i :: 0 <= i < n && Delivered(rs[..n][i]) && rs[..n][i].stdout == x {
        var i :| 0 <= i < n && Delivered(rs[..n][i]) && rs[..n][i].stdout == x;
        assert rs[i] == rs[..n][i];
      }
      if exists i :: 0 <= i < |rs| && Delivered(rs[i]) && rs[i].stdout == x {
        var i :| 0 <= i < |rs| && Delivered(rs[i]) && rs[i].stdout == x;
        if i < n {
          assert rs[..n][i] == rs[i];
        }
      }
    }
  }

  /** How many results were delivered with stdout `x`. */
  function CountDelivered(rs: seq<ExecResult>, x: string): (n: nat)
    ensures n <= |rs|
  {
    if rs == [] then 0
    else
      var k := |rs| - 1;
      CountDelivered(rs[..k], x) + (if Delivered(rs[k]) && rs[k].stdout == x then 1 else 0)
  }

  /** Each output is sent exactly as many times as runs were delivered with it:
      repeated scripts give repeated outputs, failing or silent runs give none. */
  lemma {:induction false} ForwardedMultiplicity(rs: seq<ExecResult>, x: string)
    ensures multiset(Forwarded(rs))[x] == CountDelivered(rs, x)
    decreases |rs|
  {
    if rs != [] {
      var k := |rs| - 1;
      ForwardedMultiplicity(rs[..k], x);
    }
  }

  /** When every run succeeds with output, every output is forwarded once, none
      dropped and none merged. */
  lemma {:induction false} ForwardedAllDelivered(rs: seq<ExecResult>)
    requires forall i :: 0 <= i < |rs| ==> Delivered(rs[i])
    ensures |Forwarded(rs)| == |rs|
    ensures forall i :: 0 <= i < |rs| ==> Forwarded(rs)[i] == rs[i].stdout
    decreases |rs|
  {
    if rs != [] {
      var n := |rs| - 1;
      ForwardedAllDelivered(rs[..n]);
    }
  }

  /** What is forwarded depends only on the failure flags and the stdouts, so the
      callback is unaffected by how stderr was post-processed. */
  lemma {:induction false} ForwardedIgnoresStderr(rs: seq<ExecResult>, ts: seq<ExecResult>)
    requires |rs| == |ts|
    requires forall i :: 0 <= i < |rs| ==> rs[i].err == ts[i].err && rs[i].stdout == ts[i].stdout
    ensures Forwarded(rs) == Forwarded(ts)
    decreases |rs|
  {
    if rs != [] {
      var n := |rs| - 1;
      ForwardedIgnoresStderr(rs[..n], ts[..n]);
    }
  }

  /** The `text` loop: one helper call per stored script, each on the message
      text, and the stdout of every delivered result. */
  method FanOut(scripts: seq<string>, text: string, gawk: Interpreter)
    returns (calls: seq<Call>, outputs: seq<string>)
    ensures |calls| == |scripts|
    ensures forall i :: 0 <= i < |scripts| ==> calls[i] == (scripts[i], text)
    ensures outputs == Forwarded(Outcomes(calls, gawk))
    ensures |outputs| <= |scripts|
  {
    calls, outputs := [], [];
    for i := 0 to |scripts|
      invariant |calls| == i
      invariant forall j :: 0 <= j < i ==> calls[j] == (scripts[j], text)
      invariant outputs == Forwarded(Outcomes(calls, gawk))
    {
      var script := scripts[i];
      var res := gawk(script, text);
      ghost var before := calls;
      calls := calls + [(script, text)];
      assert calls[..i] == before;
      if !res.err {
        if res.stdout != "" {
          outputs := outputs + [res.stdout];
        }
      }
    }
  }
}
