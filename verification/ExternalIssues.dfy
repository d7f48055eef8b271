/** Links to external issues: one per signal and window, whatever the clock does. */
module ExternalIssues {
  import opened Options

  datatype Status = Open | InProgress | Resolved | Closed

  datatype Link = Link(workspace: nat, signal: string, provider: string, issueKey: string, openedAt: int,
                       status: Status, closedAt: Option<int>)

  predicate SameSignal(l: Link, workspace: nat, signal: string, provider: string) {
    l.workspace == workspace && l.signal == signal && l.provider == provider
  }

  predicate Recent(l: Link, workspace: nat, signal: string, provider: string, since: int) {
    SameSignal(l, workspace, signal, provider) && l.openedAt >= since
  }

  // Any two links of one signal are more than the window apart, the later row being the later one.
  predicate Spaced(links: seq<Link>, window: int) {
    forall i, j ::
      0 <= i < j < |links| && SameSignal(links[j], links[i].workspace, links[i].signal, links[i].provider) ==>
        links[j].openedAt > links[i].openedAt + window
  }

  // A link that no recent one stands in the way of keeps the spacing, wherever its time lies.
  lemma NewLinkKeepsSpacing(links: seq<Link>, window: int, l: Link)
    requires Spaced(links, window)
    requires forall i :: 0 <= i < |links| ==> !Recent(links[i], l.workspace, l.signal, l.provider, l.openedAt - window)
    ensures Spaced(links + [l], window)
  {
    var t := links + [l];
    forall i, j | 0 <= i < j < |t| && SameSignal(t[j], t[i].workspace, t[i].signal, t[i].provider)
      ensures t[j].openedAt > t[i].openedAt + window
    {
      if j == |links| { assert !Recent(links[i], l.workspace, l.signal, l.provider, l.openedAt - window); }
    }
  }

  function LowerChar(c: char): char { if 'A' <= c <= 'Z' then (c as int + 32) as char else c }

  function Lower(s: string): string { if s == "" then "" else [LowerChar(s[0])] + Lower(s[1..]) }

  const PROVIDER_STATUS: map<string, map<string, Status>> :=
    map["jira" := map["new" := Open, "indeterminate" := InProgress, "done" := Closed, "closed" := Closed,
                       "resolved" := Resolved],
        "github" := map["open" := Open, "closed" := Closed]]

  // Unknown providers and unknown statuses count as open.
  function MapStatus(provider: string, raw: string): Status {
    if provider in PROVIDER_STATUS && Lower(raw) in PROVIDER_STATUS[provider] then
      PROVIDER_STATUS[provider][Lower(raw)]
    else Open
  }

  // The word in any mixture of small and capital letters.
  predicate Reads(raw: string, word: string) {
    |raw| == |word| && forall i :: 0 <= i < |word| ==> raw[i] == word[i] || raw[i] as int + 32 == word[i] as int
  }

  lemma {:induction false} LowerReads(raw: string, word: string)
    requires forall i :: 0 <= i < |word| ==> 'a' <= word[i] <= 'z'
    ensures Lower(raw) == word <==> Reads(raw, word)
  {
    if raw != "" && word != "" {
      LowerReads(raw[1..], word[1..]);
      assert Lower(raw) == word <==> LowerChar(raw[0]) == word[0] && Lower(raw[1..]) == word[1..] by {
        assert word == [word[0]] + word[1..];
      }
      assert Reads(raw, word) ==> Reads(raw[1..], word[1..]);
      assert raw[0] == word[0] || raw[0] as int + 32 == word[0] as int <==> LowerChar(raw[0]) == word[0];
      if Reads(raw[1..], word[1..]) && LowerChar(raw[0]) == word[0] { ReadsCons(raw, word); }
    }
  }

  lemma ReadsCons(raw: string, word: string)
    requires raw != "" && word != "" && Reads(raw[1..], word[1..])
    requires raw[0] == word[0] || raw[0] as int + 32 == word[0] as int
    ensures Reads(raw, word)
  {
    forall i | 0 <= i < |word| ensures raw[i] == word[i] || raw[i] as int + 32 == word[i] as int {
      if i > 0 { assert raw[1..][i - 1] == raw[i] && word[1..][i - 1] == word[i]; }
    }
  }

  // What every report of every provider means; anything not named here leaves the link open.
  lemma StatusIs(provider: string, raw: string)
    ensures var s := MapStatus(provider, raw);
            && (s == Closed <==> (provider in {"jira", "github"} && Reads(raw, "closed")) ||
                                 (provider == "jira" && Reads(raw, "done")))
            && (s == Resolved <==> provider == "jira" && Reads(raw, "resolved"))
            && (s == InProgress <==> provider == "jira" && Reads(raw, "indeterminate"))
  {
    LowerReads(raw, "closed");
    LowerReads(raw, "done");
    LowerReads(raw, "resolved");
    LowerReads(raw, "indeterminate");
  }

  // Only what the provider reports may change on a link.
  predicate SameIdentity(a: seq<Link>, b: seq<Link>) {
    |a| == |b| && forall i :: 0 <= i < |a| ==> a[i].(status := b[i].status, closedAt := b[i].closedAt) == b[i]
  }

  lemma SyncKeepsSpacing(a: seq<Link>, b: seq<Link>, window: int)
    requires SameIdentity(a, b) && Spaced(a, window)
    ensures Spaced(b, window)
  {
    forall i, j | 0 <= i < j < |b| && SameSignal(b[j], b[i].workspace, b[i].signal, b[i].provider)
      ensures b[j].openedAt > b[i].openedAt + window
    {
      assert SameSignal(a[j], a[i].workspace, a[i].signal, a[i].provider);
    }
  }

  // ------------------------------------------------------------ whole runs

  datatype Op =
    | Create(workspace: nat, signal: string, provider: string, issueKey: string, now: int)
    | Sync(provider: string, issueKey: string, raw: string, closedAt: Option<int>)

  predicate AnyRecent(links: seq<Link>, workspace: nat, signal: string, provider: string, since: int) {
    exists i :: 0 <= i < |links| && Recent(links[i], workspace, signal, provider, since)
  }

  // The links with what the provider reports written to the first one of that issue.
  function Synced(links: seq<Link>, provider: string, issueKey: string, status: Status,
                  closedAt: Option<int>): seq<Link> {
    if links == [] then []
    else if links[0].provider == provider && links[0].issueKey == issueKey then
      [links[0].(status := status, closedAt := closedAt)] + links[1..]
    else [links[0]] + Synced(links[1..], provider, issueKey, status, closedAt)
  }

  function Step(links: seq<Link>, window: int, op: Op): seq<Link> {
    match op
    case Create(w, s, p, key, now) =>
      if AnyRecent(links, w, s, p, now - window) then links else links + [Link(w, s, p, key, now, Open, None)]
    case Sync(p, key, raw, closedAt) => Synced(links, p, key, MapStatus(p, raw), closedAt)
  }

  function Run(window: int, ops: seq<Op>): seq<Link> {
    if ops == [] then [] else Step(Run(window, ops[..|ops| - 1]), window, ops[|ops| - 1])
  }

  lemma SyncedSame(links: seq<Link>, provider: string, issueKey: string, status: Status, closedAt: Option<int>)
    ensures SameIdentity(links, Synced(links, provider, issueKey, status, closedAt))
  {
    if links != [] { SyncedSame(links[1..], provider, issueKey, status, closedAt); }
  }

  // The oldest row of an issue.
  predicate FirstOf(links: seq<Link>, provider: string, issueKey: string, i: nat) {
    i < |links| && links[i].provider == provider && links[i].issueKey == issueKey &&
    forall k :: 0 <= k < i ==> !(links[k].provider == provider && links[k].issueKey == issueKey)
  }

  lemma SyncedFirst(links: seq<Link>, i: nat, provider: string, issueKey: string, status: Status, closedAt: Option<int>)
    requires FirstOf(links, provider, issueKey, i)
    ensures Synced(links, provider, issueKey, status, closedAt) ==
            links[i := links[i].(status := status, closedAt := closedAt)]
  {
    if i > 0 { SyncedFirst(links[1..], i - 1, provider, issueKey, status, closedAt); }
  }

  lemma SyncedNone(links: seq<Link>, provider: string, issueKey: string, status: Status, closedAt: Option<int>)
    requires forall k :: 0 <= k < |links| ==> !(links[k].provider == provider && links[k].issueKey == issueKey)
    ensures Synced(links, provider, issueKey, status, closedAt) == links
  {
    if links != [] { SyncedNone(links[1..], provider, issueKey, status, closedAt); }
  }

  lemma StepKeepsSpacing(links: seq<Link>, window: int, op: Op)
    requires Spaced(links, window)
    ensures Spaced(Step(links, window, op), window)
  {
    match op
    case Create(w, s, p, key, now) =>
      if !AnyRecent(links, w, s, p, now - window) {
        NewLinkKeepsSpacing(links, window, Link(w, s, p, key, now, Open, None));
      }
    case Sync(p, key, raw, closedAt) =>
      SyncedSame(links, p, key, MapStatus(p, raw), closedAt);
      SyncKeepsSpacing(links, Step(links, window, op), window);
  }

  // After any run of creations and syncs, with any times whatever, any two links of one signal
  // are more than the window apart.
  lemma {:induction false} RunSpaced(window: int, ops: seq<Op>)
    ensures Spaced(Run(window, ops), window)
  {
    if ops != [] {
      RunSpaced(window, ops[..|ops| - 1]);
      StepKeepsSpacing(Run(window, ops[..|ops| - 1]), window, ops[|ops| - 1]);
    }
  }

  class ExternalIssueService {
    const window: int
    var links: seq<Link>
    var created: nat  // issues filed with providers

    // Every filed issue has its link, and links keep their distance.
    ghost predicate Valid()
      reads this
    {
      created == |links| && Spaced(links, window)
    }

    constructor (window: int)
      ensures Valid() && this.window == window && links == []
    {
      this.window := window;
      links, created := [], 0;
    }

    // The most recently opened link of the signal since `since`.
    method LookupRecent(workspace: nat, signal: string, provider: string, since: int) returns (found: Option<nat>)
      ensures found.Some? ==> found.value < |links| && Recent(links[found.value], workspace, signal, provider, since)
      ensures forall i :: 0 <= i < |links| && Recent(links[i], workspace, signal, provider, since) ==>
                found.Some? && links[i].openedAt <= links[found.value].openedAt
    {
      found := None;
      for i := 0 to |links|
        invariant found.Some? ==> found.value < i && Recent(links[found.value], workspace, signal, provider, since)
        invariant forall k :: 0 <= k < i && Recent(links[k], workspace, signal, provider, since) ==>
                    found.Some? && links[k].openedAt <= links[found.value].openedAt
      {
        if Recent(links[i], workspace, signal, provider, since) &&
            (found.None? || links[i].openedAt > links[found.value].openedAt) {
          found := Some(i);
        }
      }
    }

    // `fileIssue` is the provider's answer, asked for only when no recent link exists.
    method CreateOrReuse(workspace: nat, signal: string, provider: string, fileIssue: () -> string, now: int)
      returns (index: nat, deduped: bool)
      requires Valid()
      modifies this
      ensures Valid()
      ensures links == Step(old(links), window, Create(workspace, signal, provider, fileIssue(), now))
      ensures deduped <==>
              exists i :: 0 <= i < |old(links)| && old(links)[i].workspace == workspace &&
                old(links)[i].signal == signal && old(links)[i].provider == provider &&
                now - old(links)[i].openedAt <= window
      ensures links == if deduped then old(links)
                       else old(links) + [Link(workspace, signal, provider, fileIssue(), now, Open, None)]
      ensures created == old(created) + if deduped then 0 else 1
      ensures deduped ==> index < |links| && Recent(links[index], workspace, signal, provider, now - window) &&
                          forall i :: 0 <= i < |links| && SameSignal(links[i], workspace, signal, provider) ==>
                            links[i].openedAt <= links[index].openedAt
      ensures !deduped ==> index == |links| - 1
    {
      var existing := LookupRecent(workspace, signal, provider, now - window);
      if existing.Some? {
        return existing.value, true;
      }
      var l := Link(workspace, signal, provider, fileIssue(), now, Open, None);
      NewLinkKeepsSpacing(links, window, l);
      links := links + [l];
      created := created + 1;
      return |links| - 1, false;
    }

    // Write the provider's status through; nothing else moves, so a closed issue still dedups.
    method SyncFromProvider(provider: string, issueKey: string, raw: string, closedAt: Option<int>)
        returns (found: bool)
      requires Valid()
      modifies this
      ensures Valid() && SameIdentity(old(links), links)
      ensures links == Step(old(links), window, Sync(provider, issueKey, raw, closedAt))
      ensures found <==> exists i :: 0 <= i < |links| && links[i].provider == provider && links[i].issueKey == issueKey
      ensures !found ==> links == old(links)
      ensures found ==> exists i :: 0 <= i < |links| && FirstOf(old(links), provider, issueKey, i) &&
                          links == old(links)[i := old(links)[i].(status := MapStatus(provider, raw),
                                                                  closedAt := closedAt)]
    {
      var i := 0;
      while i < |links|
        invariant 0 <= i <= |links| && links == old(links)
        invariant forall k :: 0 <= k < i ==> !(links[k].provider == provider && links[k].issueKey == issueKey)
      {
        if links[i].provider == provider && links[i].issueKey == issueKey {
          assert FirstOf(old(links), provider, issueKey, i);
          SyncedFirst(links, i, provider, issueKey, MapStatus(provider, raw), closedAt);
          SyncedSame(links, provider, issueKey, MapStatus(provider, raw), closedAt);
          ghost var before := links;
          links := links[i := links[i].(status := MapStatus(provider, raw), closedAt := closedAt)];
          SyncKeepsSpacing(before, links, window);
          return true;
        }
        i := i + 1;
      }
      SyncedNone(links, provider, issueKey, MapStatus(provider, raw), closedAt);
      return false;
    }
  }
}
