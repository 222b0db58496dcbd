/** The push path of the following feed: the fan-out worker writes a new video into its
    author's outbox and its followers' inboxes; following an ordinary author back-fills the
    follower's inbox from that author's outbox. Redis failures and the trim coin are
    arbitrary inputs. */
module Fanout {
  import opened Collections
  import opened Wrappers
  import opened Decimal
  import opened Zset
  import opened BoundedZset

  const BIG_V_THRESHOLD: nat := 10000
  const INBOX_CAP: nat := 500
  const USER_VIDEOS_CAP: nat := 50
  const FANOUT_BATCH_SIZE: nat := 100

  datatype FanoutEvent = FanoutEvent(videoID: nat, authorID: nat, createTime: int)

  // ---------- what has happened to every box ----------

  /** One command that reached an author's outbox or a follower's inbox, and where it comes
      from: a fan-out message, or an entry read from an outbox when the log was `readAt` long. */
  datatype Step =
    | WriteOutbox(message: FanoutEvent)
    | TrimOutbox(author: nat)
    | WriteInbox(message: FanoutEvent, follower: nat)
    | TrimInbox(follower: nat)
    | CopyToInbox(follower: nat, vlogger: nat, readAt: nat, entry: Entry)

  function AddVideo(m: FanoutEvent): Command { Add(FormatUint(m.videoID), m.createTime) }

  function OutboxCommand(s: Step, a: nat): seq<Command>
  {
    match s
    case WriteOutbox(m) => if m.authorID == a then [AddVideo(m)] else []
    case TrimOutbox(author) => if author == a then [Trim] else []
    case _ => []
  }

  function InboxCommand(s: Step, f: nat): seq<Command>
  {
    match s
    case WriteInbox(m, follower) => if follower == f then [AddVideo(m)] else []
    case TrimInbox(follower) => if follower == f then [Trim] else []
    case CopyToInbox(follower, _, _, e) => if follower == f then [Add(e.member, e.score)] else []
    case _ => []
  }

  function OutboxCommands(log: seq<Step>, a: nat): seq<Command>
  {
    if log == [] then [] else OutboxCommands(log[..|log| - 1], a) + OutboxCommand(log[|log| - 1], a)
  }

  function InboxCommands(log: seq<Step>, f: nat): seq<Command>
  {
    if log == [] then [] else InboxCommands(log[..|log| - 1], f) + InboxCommand(log[|log| - 1], f)
  }

  function OutboxAfter(log: seq<Step>, a: nat): ZSet { ExecAll(map[], USER_VIDEOS_CAP, OutboxCommands(log, a)) }

  function InboxAfter(log: seq<Step>, f: nat): ZSet { ExecAll(map[], INBOX_CAP, InboxCommands(log, f)) }

  /** The newest 50 entries of an outbox. */
  function BackfillRead(log: seq<Step>, a: nat): seq<Entry> { ZRevRangeWithScores(OutboxAfter(log, a), 0, 49) }

  /** The log may go on with this step: what is copied was read from the outbox before. */
  predicate LegalStep(log: seq<Step>, s: Step)
  {
    s.CopyToInbox? ==> s.readAt <= |log| && s.entry in BackfillRead(log[..s.readAt], s.vlogger)
  }

  predicate Legal(log: seq<Step>)
  {
    log == [] || (Legal(log[..|log| - 1]) && LegalStep(log[..|log| - 1], log[|log| - 1]))
  }

  lemma LegalAppend(log: seq<Step>, s: Step)
    requires Legal(log) && LegalStep(log, s)
    ensures Legal(log + [s])
  {
    assert (log + [s])[..|log|] == log;
  }

  /** The step's effect on one box. */
  function Effect(z: ZSet, cap: nat, cmds: seq<Command>): ZSet
    requires |cmds| <= 1
  {
    if cmds == [] then z else Exec(z, cap, cmds[0])
  }

  lemma ExecShort(z: ZSet, cap: nat, cmds: seq<Command>)
    requires |cmds| <= 1
    ensures ExecAll(z, cap, cmds) == Effect(z, cap, cmds)
  {
    if cmds != [] {
      ExecAllAppend(z, cap, [], cmds[0]);
      assert [] + [cmds[0]] == cmds;
    }
  }

  lemma OutboxAppend(log: seq<Step>, s: Step, a: nat)
    ensures OutboxAfter(log + [s], a) == Effect(OutboxAfter(log, a), USER_VIDEOS_CAP, OutboxCommand(s, a))
  {
    assert (log + [s])[..|log|] == log;
    ExecAllConcat(map[], USER_VIDEOS_CAP, OutboxCommands(log, a), OutboxCommand(s, a));
    ExecShort(OutboxAfter(log, a), USER_VIDEOS_CAP, OutboxCommand(s, a));
  }

  lemma InboxAppend(log: seq<Step>, s: Step, f: nat)
    ensures InboxAfter(log + [s], f) == Effect(InboxAfter(log, f), INBOX_CAP, InboxCommand(s, f))
  {
    InboxCommandsAppend(log, s, f);
    ExecAllConcat(map[], INBOX_CAP, InboxCommands(log, f), InboxCommand(s, f));
    ExecShort(InboxAfter(log, f), INBOX_CAP, InboxCommand(s, f));
  }

  /** Steps of other workers, as far as they can happen. */
  function Grown(log: seq<Step>, steps: seq<Step>): (r: seq<Step>)
    ensures log <= r
  {
    if steps == [] then log
    else
      var before, s := Grown(log, steps[..|steps| - 1]), steps[|steps| - 1];
      if LegalStep(before, s) then before + [s] else before
  }

  /** A worker's own steps, in order; before its k-th one, others take the steps `world(k)`. */
  function Woven(log: seq<Step>, own: seq<Step>, world: nat -> seq<Step>, n: nat): (r: seq<Step>)
    ensures log <= r
  {
    if own == [] then log
    else
      var k := |own| - 1;
      Grown(Woven(log, own[..k], world, n), world(n + k)) + [own[k]]
  }

  lemma WovenAppend(log: seq<Step>, own: seq<Step>, world: nat -> seq<Step>, n: nat, s: Step)
    ensures Woven(log, own + [s], world, n) == Grown(Woven(log, own, world, n), world(n + |own|)) + [s]
  {
    assert (own + [s])[..|own|] == own;
  }

  lemma WovenOne(log: seq<Step>, own: seq<Step>, s: Step, world: nat -> seq<Step>, n: nat)
    requires own == [s]
    ensures Woven(log, own, world, n) == Grown(log, world(n)) + [s]
  {
    var none := own[..0];
    assert Woven(log, none, world, n) == log;
    assert own == none + [s];
    WovenAppend(log, none, world, n, s);
  }

  lemma {:induction false} WovenConcat(log: seq<Step>, a: seq<Step>, b: seq<Step>, world: nat -> seq<Step>, n: nat)
    ensures Woven(Woven(log, a, world, n), b, world, n + |a|) == Woven(log, a + b, world, n)
    decreases |b|
  {
    if b == [] {
      assert a + b == a;
    } else {
      var k := |b| - 1;
      WovenConcat(log, a, b[..k], world, n);
      WovenAppend(log, a + b[..k], world, n, b[k]);
      SplitLast(a, b);
    }
  }

  /** Two stretches of a worker's steps make one. */
  lemma WovenOn(log: seq<Step>, a: seq<Step>, b: seq<Step>, world: nat -> seq<Step>, n: nat, middle: seq<Step>, end: seq<Step>, m: nat)
    requires middle == Woven(log, a, world, n) && m == n + |a| && end == Woven(middle, b, world, m)
    ensures end == Woven(log, a + b, world, n) && m + |b| == n + |a + b|
  {
    WovenConcat(log, a, b, world, n);
  }

  /** Where the own steps stand: in order, behind what was there before; everything else since
      then is the others'. */
  ghost predicate StandAt(log: seq<Step>, own: seq<Step>, world: nat -> seq<Step>, grown: seq<Step>, at: seq<nat>)
  {
    log <= grown && OwnAt(|log|, own, grown, at) && OthersElse(|log|, world, grown, at)
  }

  ghost predicate OwnAt(from: nat, own: seq<Step>, grown: seq<Step>, at: seq<nat>)
  {
    && |at| == |own| && (forall i, j :: 0 <= i < j < |at| ==> at[i] < at[j])
    && (forall i :: 0 <= i < |at| ==> from <= at[i] < |grown| && grown[at[i]] == own[i])
  }

  ghost predicate OthersElse(from: nat, world: nat -> seq<Step>, grown: seq<Step>, at: seq<nat>)
  {
    forall p: nat :: from <= p < |grown| && p !in at ==> OneOf(grown[p], world)
  }

  ghost predicate OneOf(s: Step, world: nat -> seq<Step>) { exists k: nat :: s in world(k) }

  lemma {:induction false} GrownByOthers(log: seq<Step>, steps: seq<Step>, p: nat)
    requires |log| <= p < |Grown(log, steps)|
    ensures Grown(log, steps)[p] in steps
    decreases |steps|
  {
    if steps != [] {
      var before := Grown(log, steps[..|steps| - 1]);
      if p < |before| { GrownByOthers(log, steps[..|steps| - 1], p); }
    }
  }

  /** Others' steps that need no earlier read all happen. */
  lemma {:induction false} OthersAreHeard(log: seq<Step>, steps: seq<Step>)
    requires forall s :: s in steps ==> !s.CopyToInbox?
    ensures Grown(log, steps) == log + steps
    decreases |steps|
  {
    if steps == [] {
      assert log + steps == log;
    } else {
      OthersAreHeard(log, steps[..|steps| - 1]);
      SplitLast(log, steps);
    }
  }

  /** A worker among others takes exactly its own steps, in their order. */
  lemma {:induction false} WovenKeepsOrder(log: seq<Step>, own: seq<Step>, world: nat -> seq<Step>, n: nat) returns (at: seq<nat>)
    ensures StandAt(log, own, world, Woven(log, own, world, n), at)
    decreases |own|
  {
    at := [];
    if own != [] {
      at := WovenKeepsOrder(log, own[..|own| - 1], world, n);
      WovenLast(log, own, world, n);
      LastStands(log, own, world, Woven(log, own[..|own| - 1], world, n), Woven(log, own, world, n), at, n + |own| - 1);
      at := at + [|Woven(log, own, world, n)| - 1];
    }
  }

  lemma LastStands(log: seq<Step>, own: seq<Step>, world: nat -> seq<Step>, before: seq<Step>, after: seq<Step>, at: seq<nat>, k: nat)
    requires own != [] && StandAt(log, own[..|own| - 1], world, before, at)
    requires after == Grown(before, world(k)) + [own[|own| - 1]]
    ensures StandAt(log, own, world, after, at + [|after| - 1])
  {
    OwnMore(|log|, own, before, after, at);
    OthersMore(|log|, world, before, after, at, k);
  }

  lemma WovenLast(log: seq<Step>, own: seq<Step>, world: nat -> seq<Step>, n: nat)
    requires own != []
    ensures Woven(log, own, world, n) == Grown(Woven(log, own[..|own| - 1], world, n), world(n + |own| - 1)) + [own[|own| - 1]]
  {
  }

  lemma OwnMore(from: nat, own: seq<Step>, before: seq<Step>, after: seq<Step>, at: seq<nat>)
    requires own != [] && OwnAt(from, own[..|own| - 1], before, at) && from <= |before| < |after| && before <= after
    requires after[|after| - 1] == own[|own| - 1]
    ensures OwnAt(from, own, after, at + [|after| - 1])
  {
  }

  lemma OthersMore(from: nat, world: nat -> seq<Step>, before: seq<Step>, after: seq<Step>, at: seq<nat>, k: nat)
    requires OthersElse(from, world, before, at) && after != [] && after[..|after| - 1] == Grown(before, world(k))
    ensures OthersElse(from, world, after, at + [|after| - 1])
  {
    var grown, all := Grown(before, world(k)), at + [|after| - 1];
    forall p: nat | from <= p < |after| && p !in all ensures OneOf(after[p], world) {
      OtherStays(at, all, p);
      assert p != all[|at|] && after[p] == grown[p];
      if p >= |before| {
        GrownByOthers(before, world(k), p);
        assert after[p] in world(k);
      }
    }
  }

  lemma OtherStays(at: seq<nat>, all: seq<nat>, p: nat)
    requires at <= all && p !in all
    ensures p !in at
  {
  }

  // ---------- what a worker sends ----------

  /** What Redis and the coin did for one follower: was the ZADD applied, did a trim run. No
      error of either is looked at. */
  datatype Flip = Flip(added: bool, trimmed: bool)

  function FollowerSteps(e: FanoutEvent, f: nat, flip: Flip): seq<Step>
  {
    If(flip.added, WriteInbox(e, f)) + If(flip.trimmed, TrimInbox(f))
  }

  function If(applied: bool, s: Step): seq<Step> { if applied then [s] else [] }

  function FanSteps(e: FanoutEvent, targets: seq<nat>, flips: nat -> Flip): seq<Step>
  {
    if targets == [] then []
    else
      var k := |targets| - 1;
      FanSteps(e, targets[..k], flips) + FollowerSteps(e, targets[k], flips(targets[k]))
  }

  lemma {:induction false} FanStepsConcat(e: FanoutEvent, a: seq<nat>, b: seq<nat>, flips: nat -> Flip)
    ensures FanSteps(e, a + b, flips) == FanSteps(e, a, flips) + FanSteps(e, b, flips)
    decreases |b|
  {
    if b == [] {
      assert a + b == a;
    } else {
      var k := |b| - 1;
      FanStepsConcat(e, a, b[..k], flips);
      FanStepsAppend(e, a + b[..k], b[k], flips);
      SplitLast(a, b);
      Associate(FanSteps(e, a, flips), FanSteps(e, b[..k], flips), FollowerSteps(e, b[k], flips(b[k])));
    }
  }

  lemma FanStepsAppend(e: FanoutEvent, targets: seq<nat>, f: nat, flips: nat -> Flip)
    ensures FanSteps(e, targets + [f], flips) == FanSteps(e, targets, flips) + FollowerSteps(e, f, flips(f))
  {
    assert (targets + [f])[..|targets|] == targets;
  }

  lemma InboxCommandsAppend(log: seq<Step>, s: Step, f: nat)
    ensures InboxCommands(log + [s], f) == InboxCommands(log, f) + InboxCommand(s, f)
  {
    assert (log + [s])[..|log|] == log;
  }

  lemma {:induction false} InboxCommandsConcat(a: seq<Step>, b: seq<Step>, f: nat)
    ensures InboxCommands(a + b, f) == InboxCommands(a, f) + InboxCommands(b, f)
    decreases |b|
  {
    if b == [] {
      assert a + b == a;
    } else {
      var k := |b| - 1;
      InboxCommandsConcat(a, b[..k], f);
      InboxCommandsAppend(a + b[..k], b[k], f);
      SplitLast(a, b);
      Associate(InboxCommands(a, f), InboxCommands(b[..k], f), InboxCommand(b[k], f));
    }
  }

  /** The fan-out serves every target once and touches no other inbox. */
  lemma {:induction false} EachTargetOnce(e: FanoutEvent, targets: seq<nat>, flips: nat -> Flip, f: nat)
    requires Distinct(targets)
    ensures InboxCommands(FanSteps(e, targets, flips), f) ==
              if f in targets
              then (if flips(f).added then [AddVideo(e)] else []) + (if flips(f).trimmed then [Trim] else [])
              else []
    decreases |targets|
  {
    if targets != [] {
      var k := |targets| - 1;
      assert targets == targets[..k] + [targets[k]];
      EachTargetOnce(e, targets[..k], flips, f);
      InboxCommandsConcat(FanSteps(e, targets[..k], flips), FollowerSteps(e, targets[k], flips(targets[k])), f);
      FollowerCommands(e, targets[k], flips(targets[k]), f);
    }
  }

  lemma FollowerCommands(e: FanoutEvent, g: nat, flip: Flip, f: nat)
    ensures InboxCommands(FollowerSteps(e, g, flip), f) ==
              if f == g then (if flip.added then [AddVideo(e)] else []) + (if flip.trimmed then [Trim] else []) else []
    ensures OutboxCommands(FollowerSteps(e, g, flip), f) == []
  {
    var adds, trims := If(flip.added, WriteInbox(e, g)), If(flip.trimmed, TrimInbox(g));
    InboxCommandsConcat(adds, trims, f);
    OutboxCommandsConcat(adds, trims, f);
    IfCommands(flip.added, WriteInbox(e, g), f);
    IfCommands(flip.trimmed, TrimInbox(g), f);
  }

  lemma {:induction false} FanOutWritesNoOutbox(e: FanoutEvent, targets: seq<nat>, flips: nat -> Flip, a: nat)
    ensures OutboxCommands(FanSteps(e, targets, flips), a) == []
    decreases |targets|
  {
    if targets != [] {
      var k := |targets| - 1;
      FanOutWritesNoOutbox(e, targets[..k], flips, a);
      OutboxCommandsConcat(FanSteps(e, targets[..k], flips), FollowerSteps(e, targets[k], flips(targets[k])), a);
      FollowerCommands(e, targets[k], flips(targets[k]), a);
    }
  }

  /** The copies of a back-fill that succeed, in order, and its trim. */
  function CopySteps(follower: nat, vlogger: nat, readAt: nat, es: seq<Entry>, added: nat -> bool): seq<Step>
  {
    if es == [] then []
    else
      var k := |es| - 1;
      CopySteps(follower, vlogger, readAt, es[..k], added) + If(added(k), CopyToInbox(follower, vlogger, readAt, es[k]))
  }

  lemma CopyStepsMore(follower: nat, vlogger: nat, readAt: nat, es: seq<Entry>, added: nat -> bool, k: nat)
    requires k < |es|
    ensures CopySteps(follower, vlogger, readAt, es[..k + 1], added) ==
              CopySteps(follower, vlogger, readAt, es[..k], added) + If(added(k), CopyToInbox(follower, vlogger, readAt, es[k]))
  {
    assert es[..k + 1][..k] == es[..k];
  }

  /** What a back-fill sends to the inbox: in order, the entries whose writes succeed, each under
      its own member and score, and the trim; nothing when there is nothing to copy. */
  ghost predicate Copies(cmds: seq<Command>, es: seq<Entry>, added: nat -> bool, trimmed: bool)
  {
    if es == [] then cmds == []
    else exists ks, adds :: CopiesAt(adds, es, added, ks) && cmds == adds + if trimmed then [Trim] else []
  }

  ghost predicate CopiesAt(adds: seq<Command>, es: seq<Entry>, added: nat -> bool, ks: seq<nat>)
  {
    && |adds| == |ks| && (forall i, j :: 0 <= i < j < |ks| ==> ks[i] < ks[j])
    && (forall k: nat :: k in ks <==> k < |es| && added(k))
    && forall i :: 0 <= i < |adds| ==> ks[i] in ks && adds[i] == Add(es[ks[i]].member, es[ks[i]].score)
  }

  lemma CopiesMore(adds: seq<Command>, es: seq<Entry>, added: nat -> bool, ks: seq<nat>, e: Entry)
    requires CopiesAt(adds, es, added, ks)
    ensures !added(|es|) ==> CopiesAt(adds, es + [e], added, ks)
    ensures added(|es|) ==> CopiesAt(adds + [Add(e.member, e.score)], es + [e], added, ks + [|es|])
  {
    var more := if added(|es|) then ks + [|es|] else ks;
    forall k: nat ensures k in more <==> k < |es + [e]| && added(k) {
      assert k in more <==> k in ks || (added(|es|) && k == |es|);
    }
    forall i, j | 0 <= i < j < |more| ensures more[i] < more[j] {
      if j == |ks| { assert ks[i] in ks; }
    }
    forall i | 0 <= i < |adds| ensures more[i] in more && adds[i] == Add((es + [e])[more[i]].member, (es + [e])[more[i]].score) {
      assert ks[i] in ks;
    }
  }

  lemma {:induction false} CopyCommands(follower: nat, vlogger: nat, readAt: nat, es: seq<Entry>, added: nat -> bool, f: nat, a: nat) returns (ks: seq<nat>)
    ensures OutboxCommands(CopySteps(follower, vlogger, readAt, es, added), a) == []
    ensures f != follower ==> InboxCommands(CopySteps(follower, vlogger, readAt, es, added), f) == []
    ensures CopiesAt(InboxCommands(CopySteps(follower, vlogger, readAt, es, added), follower), es, added, ks)
    decreases |es|
  {
    ks := [];
    if es != [] {
      var k := |es| - 1;
      ks := CopyCommands(follower, vlogger, readAt, es[..k], added, f, a);
      var before, s := CopySteps(follower, vlogger, readAt, es[..k], added), CopyToInbox(follower, vlogger, readAt, es[k]);
      CopiesMore(InboxCommands(before, follower), es[..k], added, ks, es[k]);
      assert es == es[..k] + [es[k]];
      if added(k) {
        InboxCommandsAppend(before, s, f);
        InboxCommandsAppend(before, s, follower);
        OutboxCommandsAppend(before, s, a);
        ks := ks + [k];
      } else {
        assert before + [] == before;
      }
    }
  }

  lemma OutboxCommandsAppend(log: seq<Step>, s: Step, a: nat)
    ensures OutboxCommands(log + [s], a) == OutboxCommands(log, a) + OutboxCommand(s, a)
  {
    assert (log + [s])[..|log|] == log;
  }

  lemma {:induction false} OutboxCommandsConcat(x: seq<Step>, y: seq<Step>, a: nat)
    ensures OutboxCommands(x + y, a) == OutboxCommands(x, a) + OutboxCommands(y, a)
    decreases |y|
  {
    if y == [] {
      assert x + y == x;
    } else {
      var k := |y| - 1;
      OutboxCommandsConcat(x, y[..k], a);
      OutboxCommandsAppend(x + y[..k], y[k], a);
      SplitLast(x, y);
      Associate(OutboxCommands(x, a), OutboxCommands(y[..k], a), OutboxCommand(y[k], a));
    }
  }

  lemma IfCommands(applied: bool, s: Step, id: nat)
    ensures InboxCommands(If(applied, s), id) == if applied then InboxCommand(s, id) else []
    ensures OutboxCommands(If(applied, s), id) == if applied then OutboxCommand(s, id) else []
  {
    if applied {
      assert [s][..0] == [];
    }
  }

  /** A back-fill reaches one inbox and no outbox. */
  lemma BackfillCommands(follower: nat, vlogger: nat, log: seq<Step>, added: nat -> bool, trimmed: bool, f: nat, a: nat)
    ensures var own := BackfillSteps(follower, vlogger, log, added, trimmed);
            && OutboxCommands(own, a) == [] && (f != follower ==> InboxCommands(own, f) == [])
            && Copies(InboxCommands(own, follower), ZRevRangeWithScores(OutboxAfter(log, vlogger), 0, 49), added, trimmed)
  {
    var es := BackfillRead(log, vlogger);
    if es != [] {
      var copies := CopySteps(follower, vlogger, |log|, es, added);
      var ks := CopyCommands(follower, vlogger, |log|, es, added, f, a);
      TrimCommands(copies, trimmed, follower, f);
      TrimCommands(copies, trimmed, follower, follower);
      TrimCommands(copies, trimmed, follower, a);
    }
  }

  lemma TrimCommands(copies: seq<Step>, trimmed: bool, follower: nat, id: nat)
    ensures InboxCommands(copies + If(trimmed, TrimInbox(follower)), id) ==
              InboxCommands(copies, id) + if trimmed && id == follower then [Trim] else []
    ensures OutboxCommands(copies + If(trimmed, TrimInbox(follower)), id) == OutboxCommands(copies, id)
  {
    InboxCommandsConcat(copies, If(trimmed, TrimInbox(follower)), id);
    OutboxCommandsConcat(copies, If(trimmed, TrimInbox(follower)), id);
    IfCommands(trimmed, TrimInbox(follower), id);
  }

  lemma AllBackfillCommands(follower: nat, vlogger: nat, log: seq<Step>, added: nat -> bool, trimmed: bool)
    ensures var own := BackfillSteps(follower, vlogger, log, added, trimmed);
            && (forall a :: OutboxCommands(own, a) == []) && (forall f :: f != follower ==> InboxCommands(own, f) == [])
            && Copies(InboxCommands(own, follower), ZRevRangeWithScores(OutboxAfter(log, vlogger), 0, 49), added, trimmed)
  {
    var own := BackfillSteps(follower, vlogger, log, added, trimmed);
    BackfillCommands(follower, vlogger, log, added, trimmed, follower, 0);
    forall a ensures OutboxCommands(own, a) == [] { BackfillCommands(follower, vlogger, log, added, trimmed, follower, a); }
    forall f | f != follower ensures InboxCommands(own, f) == [] { BackfillCommands(follower, vlogger, log, added, trimmed, f, 0); }
  }

  /** A back-fill that finds nothing sends nothing. */
  function BackfillSteps(follower: nat, vlogger: nat, log: seq<Step>, added: nat -> bool, trimmed: bool): seq<Step>
  {
    var es := BackfillRead(log, vlogger);
    if es == [] then []
    else CopySteps(follower, vlogger, |log|, es, added) + If(trimmed, TrimInbox(follower))
  }

  datatype Outcome = Ack | Nack

  /** How a fan-out message ends: which followers are written and whether it is acknowledged. */
  datatype Plan = Plan(outcome: Outcome, targets: seq<nat>)

  /** A count of None is a failed lookup; followers of None a failed query. */
  function FanoutPlan(followerCount: Option<nat>, followers: Option<seq<nat>>, active: set<nat>): Plan
  {
    if followerCount.None? || followerCount.value >= BIG_V_THRESHOLD then Plan(Ack, [])
    else if followers.None? then Plan(Nack, [])
    else Plan(Ack, ActiveOnly(followers.value, active))
  }

  function ActiveOnly(followers: seq<nat>, active: set<nat>): (r: seq<nat>)
    ensures forall f :: f in r <==> f in followers && f in active
  {
    if followers == [] then []
    else
      var last := followers[|followers| - 1];
      ActiveOnly(followers[..|followers| - 1], active) + (if last in active then [last] else [])
  }

  lemma {:induction false} ActiveOnlyDistinct(followers: seq<nat>, active: set<nat>)
    requires Distinct(followers)
    ensures Distinct(ActiveOnly(followers, active))
  {
    if followers != [] {
      ActiveOnlyDistinct(followers[..|followers| - 1], active);
    }
  }

  predicate WellFormed(evt: Option<FanoutEvent>) { evt.Some? && evt.value.videoID != 0 && evt.value.authorID != 0 }

  /** What happens to the outbox: how its ZADD ends, and was its trim applied. */
  datatype OutboxCalls = OutboxCalls(zadd: Reply, trimmed: bool)

  function OutboxSteps(e: FanoutEvent, outbox: OutboxCalls): seq<Step>
  {
    If(outbox.zadd.Applied(), WriteOutbox(e)) + if outbox.zadd.Heard? then If(outbox.trimmed, TrimOutbox(e.authorID)) else []
  }

  /** The steps of one message, and whether it is acknowledged. A ZADD whose reply is lost may
      have been applied, and the message comes back. */
  function MessageSteps(evt: Option<FanoutEvent>, outbox: OutboxCalls, plan: Plan, flips: nat -> Flip): seq<Step>
  {
    if !WellFormed(evt) then []
    else
      var e := evt.value;
      OutboxSteps(e, outbox) + if outbox.zadd.Heard? then FanSteps(e, plan.targets, flips) else []
  }

  /** The follower gets the video pushed: the message is sound and its outbox write confirmed, the
      author is known to have fewer than 10000 followers, and the follower is one of the active ones. */
  ghost predicate PushedTo(evt: Option<FanoutEvent>, outbox: OutboxCalls, followerCount: Option<nat>, followers: Option<seq<nat>>,
      active: set<nat>, f: nat)
  {
    && evt.Some? && evt.value.videoID != 0 && evt.value.authorID != 0 && outbox.zadd.Heard?
    && followerCount.Some? && followerCount.value < 10000
    && followers.Some? && f in followers.value && f in active
  }

  lemma OutboxStepCommands(e: FanoutEvent, outbox: OutboxCalls, id: nat)
    ensures InboxCommands(OutboxSteps(e, outbox), id) == []
    ensures OutboxCommands(OutboxSteps(e, outbox), id) ==
              if id == e.authorID
              then (if outbox.zadd.Applied() then [AddVideo(e)] else []) + (if outbox.zadd.Heard? && outbox.trimmed then [Trim] else [])
              else []
  {
    var trims := if outbox.zadd.Heard? then If(outbox.trimmed, TrimOutbox(e.authorID)) else [];
    InboxCommandsConcat(If(outbox.zadd.Applied(), WriteOutbox(e)), trims, id);
    OutboxCommandsConcat(If(outbox.zadd.Applied(), WriteOutbox(e)), trims, id);
    IfCommands(outbox.zadd.Applied(), WriteOutbox(e), id);
    IfCommands(outbox.trimmed, TrimOutbox(e.authorID), id);
  }

  /** What one message sends to an inbox. */
  lemma MessageToInbox(evt: Option<FanoutEvent>, outbox: OutboxCalls, followerCount: Option<nat>, followers: Option<seq<nat>>,
      active: set<nat>, flips: nat -> Flip, f: nat)
    requires followers.Some? ==> Distinct(followers.value)
    ensures InboxCommands(MessageSteps(evt, outbox, FanoutPlan(followerCount, followers, active), flips), f) ==
              if PushedTo(evt, outbox, followerCount, followers, active, f)
              then (if flips(f).added then [Add(FormatUint(evt.value.videoID), evt.value.createTime)] else []) +
                   (if flips(f).trimmed then [Trim] else [])
              else []
  {
    var plan := FanoutPlan(followerCount, followers, active);
    PlannedTargets(followerCount, followers, active, f);
    if WellFormed(evt) { TargetCommands(evt.value, outbox, plan.targets, flips, f); }
  }

  lemma PlannedTargets(followerCount: Option<nat>, followers: Option<seq<nat>>, active: set<nat>, f: nat)
    requires followers.Some? ==> Distinct(followers.value)
    ensures var targets := FanoutPlan(followerCount, followers, active).targets;
            && Distinct(targets)
            && (f in targets <==> followerCount.Some? && followerCount.value < 10000 && followers.Some? && f in followers.value && f in active)
  {
    if followers.Some? { ActiveOnlyDistinct(followers.value, active); }
  }

  lemma TargetCommands(e: FanoutEvent, outbox: OutboxCalls, targets: seq<nat>, flips: nat -> Flip, f: nat)
    requires Distinct(targets)
    ensures InboxCommands(OutboxSteps(e, outbox) + if outbox.zadd.Heard? then FanSteps(e, targets, flips) else [], f) ==
              if outbox.zadd.Heard? && f in targets
              then (if flips(f).added then [AddVideo(e)] else []) + (if flips(f).trimmed then [Trim] else [])
              else []
  {
    OutboxStepCommands(e, outbox, f);
    EachTargetOnce(e, targets, flips, f);
    InboxCommandsConcat(OutboxSteps(e, outbox), if outbox.zadd.Heard? then FanSteps(e, targets, flips) else [], f);
  }

  /** What it sends to an outbox. */
  lemma MessageToOutbox(evt: Option<FanoutEvent>, outbox: OutboxCalls, plan: Plan, flips: nat -> Flip, a: nat)
    ensures OutboxCommands(MessageSteps(evt, outbox, plan, flips), a) ==
              if evt.Some? && evt.value.videoID != 0 && a != 0 && a == evt.value.authorID
              then (if outbox.zadd.Applied() then [Add(FormatUint(evt.value.videoID), evt.value.createTime)] else []) +
                   (if outbox.zadd.Heard? && outbox.trimmed then [Trim] else [])
              else []
  {
    if WellFormed(evt) {
      var e := evt.value;
      OutboxStepCommands(e, outbox, a);
      FanOutWritesNoOutbox(e, plan.targets, flips, a);
      OutboxCommandsConcat(OutboxSteps(e, outbox), FanSteps(e, plan.targets, flips), a);
      assert OutboxSteps(e, outbox) + [] == OutboxSteps(e, outbox);
    }
  }

  function BoxOf(boxes: map<nat, ZSet>, id: nat): ZSet { if id in boxes then boxes[id] else map[] }

  // ---------- the store ----------

  ghost predicate BoxesOf(log: seq<Step>, inboxes: map<nat, ZSet>, userVideos: map<nat, ZSet>)
  {
    && (forall f :: BoxOf(inboxes, f) == InboxAfter(log, f))
    && (forall a :: BoxOf(userVideos, a) == OutboxAfter(log, a))
  }

  lemma BoxesAppend(log: seq<Step>, s: Step, inboxes: map<nat, ZSet>, userVideos: map<nat, ZSet>, newInboxes: map<nat, ZSet>, newUserVideos: map<nat, ZSet>)
    requires BoxesOf(log, inboxes, userVideos)
    requires forall f :: BoxOf(newInboxes, f) == Effect(BoxOf(inboxes, f), INBOX_CAP, InboxCommand(s, f))
    requires forall a :: BoxOf(newUserVideos, a) == Effect(BoxOf(userVideos, a), USER_VIDEOS_CAP, OutboxCommand(s, a))
    ensures BoxesOf(log + [s], newInboxes, newUserVideos)
  {
    forall a ensures BoxOf(newUserVideos, a) == OutboxAfter(log + [s], a) { OutboxAppend(log, s, a); }
    forall f ensures BoxOf(newInboxes, f) == InboxAfter(log + [s], f) { InboxAppend(log, s, f); }
  }

  class FanoutStore {
    var inboxes: map<nat, ZSet>
    var userVideos: map<nat, ZSet>
    /** Every command so far, in order. */
    var log: seq<Step>

    /** The boxes are what the log has made of them. */
    ghost predicate Valid()
      reads this
    {
      Legal(log) && BoxesOf(log, inboxes, userVideos)
    }

    constructor ()
      ensures Valid() && log == []
    {
      inboxes, userVideos, log := map[], map[], [];
    }

    /** A missing Redis key is an empty sorted set. */
    function Inbox(f: nat): ZSet reads this`inboxes { BoxOf(inboxes, f) }

    function UserVideos(a: nat): ZSet reads this`userVideos { BoxOf(userVideos, a) }

    /** One command. */
    method Do(s: Step)
      requires Valid() && LegalStep(log, s)
      modifies this
      ensures Valid() && log == old(log) + [s]
    {
      LegalAppend(log, s);
      ChangeOutbox(s);
      ChangeInbox(s);
      BoxesAppend(log, s, old(inboxes), old(userVideos), inboxes, userVideos);
      log := log + [s];
    }

    method ChangeOutbox(s: Step)
      modifies this`userVideos
      ensures forall a :: UserVideos(a) == Effect(old(UserVideos(a)), USER_VIDEOS_CAP, OutboxCommand(s, a))
    {
      match s {
        case WriteOutbox(m) =>
          userVideos := userVideos[m.authorID := ZAdd(UserVideos(m.authorID), FormatUint(m.videoID), m.createTime)];
        case TrimOutbox(author) =>
          userVideos := userVideos[author := ZRemRangeByRank(UserVideos(author), 0, -(USER_VIDEOS_CAP + 1))];
        case _ =>
      }
    }

    method ChangeInbox(s: Step)
      modifies this`inboxes
      ensures forall f :: Inbox(f) == Effect(old(Inbox(f)), INBOX_CAP, InboxCommand(s, f))
    {
      match s {
        case WriteInbox(m, follower) =>
          inboxes := inboxes[follower := ZAdd(Inbox(follower), FormatUint(m.videoID), m.createTime)];
        case TrimInbox(follower) =>
          inboxes := inboxes[follower := ZRemRangeByRank(Inbox(follower), 0, -(INBOX_CAP + 1))];
        case CopyToInbox(follower, _, _, e) =>
          inboxes := inboxes[follower := ZAdd(Inbox(follower), e.member, e.score)];
        case _ =>
      }
    }

    /** Other workers go on. */
    method Others(steps: seq<Step>)
      requires Valid()
      modifies this
      ensures Valid() && log == Grown(old(log), steps)
    {
      for i := 0 to |steps|
        invariant Valid() && log == Grown(old(log), steps[..i])
      {
        assert steps[..i + 1][..i] == steps[..i];
        if LegalStep(log, steps[i]) {
          Do(steps[i]);
        }
      }
      assert steps[..|steps|] == steps;
    }

    /** The worker's next command, when the others have gone on. */
    method Issue(s: Step, applied: bool, world: nat -> seq<Step>, n: nat) returns (sent: nat)
      requires Valid() && (applied ==> LegalStep(Grown(log, world(n)), s))
      modifies this
      ensures Valid() && sent == n + |If(applied, s)|
      ensures log == Woven(old(log), If(applied, s), world, n)
    {
      sent := n;
      if applied {
        WovenOne(log, If(applied, s), s, world, n);
        Others(world(n));
        Do(s);
        sent := n + 1;
      }
    }

    /** The worker's handling of one message, from the outbox write to the last batch, among
        whatever the other workers do meanwhile. */
    method Process(evt: Option<FanoutEvent>, outbox: OutboxCalls, followerCount: Option<nat>,
                   followers: Option<seq<nat>>, active: set<nat>, flips: nat -> Flip, world: nat -> seq<Step>)
      returns (outcome: Outcome, ghost own: seq<Step>)
      requires Valid() && (followers.Some? ==> Distinct(followers.value))
      modifies this
      ensures Valid() && log == Woven(old(log), own, world, 0)
      // Every active follower of an ordinary author gets the video, once, and nobody else.
      ensures forall f :: InboxCommands(own, f) ==
                if PushedTo(evt, outbox, followerCount, followers, active, f)
                then (if flips(f).added then [Add(FormatUint(evt.value.videoID), evt.value.createTime)] else []) +
                     (if flips(f).trimmed then [Trim] else [])
                else []
      // The author's outbox gets it whoever follows, and no other outbox does.
      ensures forall a :: OutboxCommands(own, a) ==
                if evt.Some? && evt.value.videoID != 0 && a != 0 && a == evt.value.authorID
                then (if outbox.zadd.Applied() then [Add(FormatUint(evt.value.videoID), evt.value.createTime)] else []) +
                     (if outbox.zadd.Heard? && outbox.trimmed then [Trim] else [])
                else []
      // The message comes back when the outbox write is not confirmed, and when an ordinary
      // author's followers cannot be listed.
      ensures outcome == Nack <==>
                && evt.Some? && evt.value.videoID != 0 && evt.value.authorID != 0
                && (!outbox.zadd.Heard? || (followerCount.Some? && followerCount.value < 10000 && followers.None?))
    {
      ghost var plan := FanoutPlan(followerCount, followers, active);
      own := MessageSteps(evt, outbox, plan, flips);
      forall f { MessageToInbox(evt, outbox, followerCount, followers, active, flips, f); }
      forall a { MessageToOutbox(evt, outbox, plan, flips, a); }
      if evt.None? || evt.value.videoID == 0 || evt.value.authorID == 0 {
        outcome := Ack;
        return;
      }
      var e := evt.value;
      var sent := WriteUserVideos(e, outbox, world);
      if !outbox.zadd.Heard? {
        outcome := Nack;
        assert own == OutboxSteps(e, outbox);
        return;
      }
      ghost var middle := log;
      outcome := FanOut(e, followerCount, followers, active, flips, world, sent);
      WovenOn(old(log), OutboxSteps(e, outbox), FanSteps(e, plan.targets, flips), world, 0, middle, log, sent);
    }

    /** Which followers the message goes to. */
    method FanOut(e: FanoutEvent, followerCount: Option<nat>, followers: Option<seq<nat>>, active: set<nat>, flips: nat -> Flip,
                  world: nat -> seq<Step>, n: nat) returns (outcome: Outcome)
      requires Valid()
      modifies this
      ensures Valid() && outcome == FanoutPlan(followerCount, followers, active).outcome
      ensures log == Woven(old(log), FanSteps(e, FanoutPlan(followerCount, followers, active).targets, flips), world, n)
    {
      if followerCount.None? || followerCount.value >= BIG_V_THRESHOLD {
        return Ack;
      }
      if followers.None? {
        return Nack;
      }
      FanoutAll(ActiveOnly(followers.value, active), e, flips, world, n);
      outcome := Ack;
    }

    /** The author's outbox gets the video, then is trimmed to its cap. */
    method WriteUserVideos(e: FanoutEvent, outbox: OutboxCalls, world: nat -> seq<Step>) returns (sent: nat)
      requires Valid()
      modifies this
      ensures Valid() && sent == |OutboxSteps(e, outbox)|
      ensures log == Woven(old(log), OutboxSteps(e, outbox), world, 0)
    {
      sent := Issue(WriteOutbox(e), outbox.zadd.Applied(), world, 0);
      ghost var middle, first := log, If(outbox.zadd.Applied(), WriteOutbox(e));
      if outbox.zadd.Heard? {
        var after := Issue(TrimOutbox(e.authorID), outbox.trimmed, world, sent);
        WovenOn(old(log), first, If(outbox.trimmed, TrimOutbox(e.authorID)), world, 0, middle, log, sent);
        sent := after;
      } else {
        assert first + [] == first;
      }
    }

    /** Followers are served in batches of 100. */
    method FanoutAll(targets: seq<nat>, e: FanoutEvent, flips: nat -> Flip, world: nat -> seq<Step>, n: nat)
      requires Valid()
      modifies this
      ensures Valid() && log == Woven(old(log), FanSteps(e, targets, flips), world, n)
    {
      var i, sent := 0, n;
      while i < |targets|
        invariant 0 <= i && Valid() && sent == n + |FanSteps(e, Take(targets, i), flips)|
        invariant log == Woven(old(log), FanSteps(e, Take(targets, i), flips), world, n)
        decreases |targets| - i
      {
        var end := i + FANOUT_BATCH_SIZE;
        if end > |targets| {
          end := |targets|;
        }
        TakeMore(targets, i, FANOUT_BATCH_SIZE);
        FanStepsConcat(e, Take(targets, i), targets[i..end], flips);
        ghost var middle, own, next := log, FanSteps(e, Take(targets, i), flips), FanSteps(e, targets[i..end], flips);
        var after := FanoutBatch(targets[i..end], e, flips, world, sent);
        WovenOn(old(log), own, next, world, n, middle, log, sent);
        i, sent := i + FANOUT_BATCH_SIZE, after;
      }
      assert Take(targets, i) == targets;
    }

    /** One batch: a ZADD per follower, each followed by a trim when the coin says so. */
    method FanoutBatch(batch: seq<nat>, e: FanoutEvent, flips: nat -> Flip, world: nat -> seq<Step>, n: nat) returns (sent: nat)
      requires Valid()
      modifies this
      ensures Valid() && sent == n + |FanSteps(e, batch, flips)|
      ensures log == Woven(old(log), FanSteps(e, batch, flips), world, n)
    {
      sent := n;
      for k := 0 to |batch|
        invariant Valid() && sent == n + |FanSteps(e, batch[..k], flips)|
        invariant log == Woven(old(log), FanSteps(e, batch[..k], flips), world, n)
      {
        assert batch[..k + 1][..k] == batch[..k];
        ghost var middle, own, next := log, FanSteps(e, batch[..k], flips), FollowerSteps(e, batch[k], flips(batch[k]));
        assert FanSteps(e, batch[..k + 1], flips) == own + next;
        var after := ServeFollower(e, batch[k], flips(batch[k]), world, sent);
        WovenOn(old(log), own, next, world, n, middle, log, sent);
        sent := after;
      }
      assert batch[..|batch|] == batch;
    }

    method ServeFollower(e: FanoutEvent, f: nat, flip: Flip, world: nat -> seq<Step>, n: nat) returns (sent: nat)
      requires Valid()
      modifies this
      ensures Valid() && sent == n + |FollowerSteps(e, f, flip)|
      ensures log == Woven(old(log), FollowerSteps(e, f, flip), world, n)
    {
      var middle := Issue(WriteInbox(e, f), flip.added, world, n);
      ghost var between := log;
      sent := Issue(TrimInbox(f), flip.trimmed, world, middle);
      WovenOn(old(log), If(flip.added, WriteInbox(e, f)), If(flip.trimmed, TrimInbox(f)), world, n, between, log, middle);
    }

    /** Copy the newest 50 entries of the author's outbox into the follower's inbox, then trim;
        a failed read of the outbox ends it. Others may write to both boxes at any point. */
    method BackfillInbox(follower: nat, vlogger: nat, readOk: bool, added: nat -> bool, trimmed: bool, world: nat -> seq<Step>)
      returns (ghost own: seq<Step>)
      requires Valid()
      modifies this
      ensures var before := Grown(old(log), world(0));
              && Valid() && log == Woven(before, own, world, 1)
              && (!readOk ==> own == [])
              && (readOk ==> Copies(InboxCommands(own, follower), ZRevRangeWithScores(OutboxAfter(before, vlogger), 0, 49), added, trimmed))
      ensures (forall f :: f != follower ==> InboxCommands(own, f) == []) && (forall a :: OutboxCommands(own, a) == [])
    {
      Others(world(0));
      own := [];
      if readOk {
        own := BackfillSteps(follower, vlogger, log, added, trimmed);
        AllBackfillCommands(follower, vlogger, log, added, trimmed);
        CopyAndTrim(follower, vlogger, added, trimmed, world);
      }
    }

    method CopyAndTrim(follower: nat, vlogger: nat, added: nat -> bool, trimmed: bool, world: nat -> seq<Step>)
      requires Valid()
      modifies this
      ensures Valid() && log == Woven(old(log), BackfillSteps(follower, vlogger, old(log), added, trimmed), world, 1)
    {
      var videos := ZRevRangeWithScores(UserVideos(vlogger), 0, 49);
      if |videos| == 0 {
        return;
      }
      var readAt := |log|;
      var sent := CopyVideos(follower, vlogger, readAt, videos, added, world);
      ghost var middle := log;
      var _ := Issue(TrimInbox(follower), trimmed, world, sent);
      WovenOn(old(log), CopySteps(follower, vlogger, readAt, videos, added), If(trimmed, TrimInbox(follower)), world, 1, middle, log, sent);
    }

    method CopyVideos(follower: nat, vlogger: nat, readAt: nat, videos: seq<Entry>, added: nat -> bool, world: nat -> seq<Step>)
      returns (sent: nat)
      requires Valid() && readAt == |log| && videos == BackfillRead(log, vlogger)
      modifies this
      ensures Valid() && sent == 1 + |CopySteps(follower, vlogger, readAt, videos, added)|
      ensures log == Woven(old(log), CopySteps(follower, vlogger, readAt, videos, added), world, 1)
    {
      sent := 1;
      for k := 0 to |videos|
        invariant Valid() && sent == 1 + |CopySteps(follower, vlogger, readAt, videos[..k], added)|
        invariant log == Woven(old(log), CopySteps(follower, vlogger, readAt, videos[..k], added), world, 1)
      {
        CopyStepsMore(follower, vlogger, readAt, videos, added, k);
        ghost var middle, own := log, CopySteps(follower, vlogger, readAt, videos[..k], added);
        var s := CopyToInbox(follower, vlogger, readAt, videos[k]);
        assert old(log) <= log <= Grown(log, world(sent));
        CopyIsLegal(old(log), Grown(log, world(sent)), s);
        var after := Issue(s, added(k), world, sent);
        WovenOn(old(log), own, If(added(k), s), world, 1, middle, log, sent);
        sent := after;
      }
      assert videos[..|videos|] == videos;
    }

    /** What the following feed reads of an inbox is what it would read had no trim ever run. */
    method ReadInbox(f: nat, n: nat) returns (members: seq<Member>)
      requires Valid() && OneTimePerVideo(log) && 1 <= n <= 500
      ensures members == ZRevRange(Untrimmed(InboxCommands(log, f)), 0, n - 1)
    {
      TrimmingIsUnobservable(log, f, n);
      members := ZRevRange(Inbox(f), 0, n - 1);
    }
  }

  /** What was read stays read, however the log goes on. */
  lemma CopyIsLegal(read: seq<Step>, log: seq<Step>, s: Step)
    requires read <= log && s.CopyToInbox? && s.readAt == |read| && s.entry in BackfillRead(read, s.vlogger)
    ensures LegalStep(log, s)
  {
    assert log[..|read|] == read;
  }

  // ---------- a whole inbox history ----------

  /** Steps that carry out a message about a video. */
  predicate Carries(s: Step) { s.WriteOutbox? || s.WriteInbox? }

  predicate SameVideo(a: Step, b: Step)
  {
    Carries(a) && Carries(b) && a.message.videoID == b.message.videoID
  }

  /** Every message about a video carries the same creation time. */
  ghost predicate OneTimePerVideo(log: seq<Step>)
  {
    forall a, b :: a in log && b in log && SameVideo(a, b) ==> a.message.createTime == b.message.createTime
  }

  predicate Announces(s: Step, c: Command) { Carries(s) && c == AddVideo(s.message) }

  /** Some message in the log asks for this entry. */
  ghost predicate Announced(log: seq<Step>, c: Command) { exists s :: s in log && Announces(s, c) }

  lemma AnnouncedStays(log: seq<Step>, more: seq<Step>, c: Command)
    requires log <= more && Announced(log, c)
    ensures Announced(more, c)
  {
    var s :| s in log && Announces(s, c);
    assert s in more;
  }

  lemma {:induction false} OutboxIsAnnounced(log: seq<Step>, a: nat)
    ensures forall c :: c in OutboxCommands(log, a) && c.Add? ==> Announced(log, c)
    decreases |log|
  {
    if log != [] {
      var before, s := log[..|log| - 1], log[|log| - 1];
      OutboxIsAnnounced(before, a);
      forall c | c in OutboxCommands(log, a) && c.Add? ensures Announced(log, c) {
        if c in OutboxCommands(before, a) { AnnouncedStays(before, log, c); } else { assert s in log && Announces(s, c); }
      }
    }
  }

  lemma EntriesAreStored(z: ZSet, e: Entry)
    requires e in ZRevRangeWithScores(z, 0, 49)
    ensures e.member in z && z[e.member] == e.score
  {
    var ms := ZRevRange(z, 0, 49);
    var i :| 0 <= i < |ms| && ZRevRangeWithScores(z, 0, 49)[i] == e;
    assert ms[i] in ms;
  }

  /** An entry read from an outbox was once written to it. */
  lemma ReadIsAnnounced(log: seq<Step>, a: nat, e: Entry)
    requires e in BackfillRead(log, a)
    ensures Announced(log, Add(e.member, e.score))
  {
    EntriesAreStored(OutboxAfter(log, a), e);
    StoredWasAdded(OutboxCommands(log, a), USER_VIDEOS_CAP, e.member);
    OutboxIsAnnounced(log, a);
  }

  lemma StepIsAnnounced(log: seq<Step>, f: nat, c: Command)
    requires log != [] && Legal(log) && c.Add? && c in InboxCommand(log[|log| - 1], f)
    ensures Announced(log, c)
  {
    var before, s := log[..|log| - 1], log[|log| - 1];
    if s.CopyToInbox? {
      ReadIsAnnounced(before[..s.readAt], s.vlogger, s.entry);
      AnnouncedStays(before[..s.readAt], log, c);
    } else {
      assert s in log && Announces(s, c);
    }
  }

  lemma {:induction false} InboxIsAnnounced(log: seq<Step>, f: nat)
    requires Legal(log)
    ensures forall c :: c in InboxCommands(log, f) && c.Add? ==> Announced(log, c)
    decreases |log|
  {
    if log != [] {
      var before := log[..|log| - 1];
      InboxIsAnnounced(before, f);
      forall c | c in InboxCommands(log, f) && c.Add? ensures Announced(log, c) {
        if c in InboxCommands(before, f) { AnnouncedStays(before, log, c); } else { StepIsAnnounced(log, f, c); }
      }
    }
  }

  /** One time per video on the messages is one score per member in every inbox, back-fills
      from outboxes as they were at any earlier moment included. */
  lemma ScoresAreFixed(log: seq<Step>, f: nat)
    requires Legal(log) && OneTimePerVideo(log)
    ensures FixedScores(InboxCommands(log, f))
  {
    InboxIsAnnounced(log, f);
    var cmds := InboxCommands(log, f);
    forall a, b | a in cmds && b in cmds && a.Add? && b.Add? && a.member == b.member ensures a.score == b.score {
      var x :| x in log && Announces(x, a);
      var y :| y in log && Announces(y, b);
      FormatInjective(x.message.videoID, y.message.videoID);
      assert SameVideo(x, y);
    }
  }

  /** Probabilistic trimming cannot be observed: in whatever order the commands of all workers
      fall, the newest entries of an inbox, as many as its cap, are those of an inbox never
      trimmed. The feed reads at most 100 of them. */
  lemma TrimmingIsUnobservable(log: seq<Step>, f: nat, n: nat)
    requires Legal(log) && OneTimePerVideo(log) && 1 <= n <= 500
    ensures var all := Untrimmed(InboxCommands(log, f));
            && ZRevRange(InboxAfter(log, f), 0, n - 1) == ZRevRange(all, 0, n - 1)
            && forall m :: m in ZRevRange(all, 0, n - 1) ==>
                 m in InboxAfter(log, f) && m in all && InboxAfter(log, f)[m] == all[m]
  {
    ScoresAreFixed(log, f);
    ReadsAreUntrimmed(InboxCommands(log, f), INBOX_CAP, n);
  }

  lemma OutboxScoresAreFixed(log: seq<Step>, a: nat)
    requires OneTimePerVideo(log)
    ensures FixedScores(OutboxCommands(log, a))
  {
    OutboxIsAnnounced(log, a);
    var cmds := OutboxCommands(log, a);
    forall b, c | b in cmds && c in cmds && b.Add? && c.Add? && b.member == c.member ensures b.score == c.score {
      var x :| x in log && Announces(x, b);
      var y :| y in log && Announces(y, c);
      FormatInjective(x.message.videoID, y.message.videoID);
      assert SameVideo(x, y);
    }
  }

  /** An outbox keeps the newest 50 of all it was told, which is as many as a back-fill copies
      and more than a reader pulls. */
  lemma OutboxKeepsNewest(log: seq<Step>, a: nat, n: nat)
    requires OneTimePerVideo(log) && 1 <= n <= 50
    ensures ZRevRange(OutboxAfter(log, a), 0, n - 1) == ZRevRange(Untrimmed(OutboxCommands(log, a)), 0, n - 1)
  {
    OutboxScoresAreFixed(log, a);
    ReadsAreUntrimmed(OutboxCommands(log, a), USER_VIDEOS_CAP, n);
  }
}
