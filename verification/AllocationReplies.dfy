/** What the disk sends to a peer, in endgame too: only blocks of pieces the peer has
    announced. */
module AllocationReplies {
  import opened Basics
  import opened Metainfo
  import opened DiskModel
  import opened TorrentModel
  import opened Allocation
  import opened AllocationMoves
  import opened AllocationRuns

  /** The pool only loses messages or gains blocks on their way back. */
  ghost predicate Quieter(s: System, r: System) {
    && |s.pool| <= |r.pool| && r.announced == s.announced && r.torrent == s.torrent
    && (forall i :: 0 <= i < |s.pool| ==> r.pool[i] == s.pool[i] || r.pool[i] == Gone)
    && (forall i :: |s.pool| <= i < |r.pool| ==> r.pool[i].Returned?)
  }

  lemma {:induction false} QuieterKeepsMsgs(s: System, r: System)
    requires GoodMsgs(s) && GoodTorrent(s) && Quieter(s, r)
    ensures GoodMsgs(r) && GoodTorrent(r)
  {
    forall i | 0 <= i < |r.pool| ensures GoodMsg(r.pool[i], r.announced) {
      if i < |s.pool| && r.pool[i] == s.pool[i] {
        assert GoodMsg(s.pool[i], s.announced);
      }
    }
  }

  lemma {:induction false} OthersAreQuieter(t: Torrent, s: System, e: Event)
    requires !e.HaveEvent? && !e.BitfieldEvent? && !e.DownloadedEvent? && !e.RequestEvent? && !e.ServeEvent?
    ensures Quieter(s, Step(t, s, e))
  {
    hide PeerHave, SetPeerBitfield, MarkDownloaded;
  }

  lemma {:induction false} AnnouncingKeepsMsgs(t: Torrent, s: System, e: Event)
    requires GoodMsgs(s) && GoodTorrent(s) && (e.HaveEvent? || e.BitfieldEvent? || e.DownloadedEvent?)
    ensures GoodMsgs(Step(t, s, e)) && GoodTorrent(Step(t, s, e))
  {
    AnnouncingKeepsTorrent(t, s, e);
    var r := Step(t, s, e);
    assert r.pool == s.pool;
    forall i | 0 <= i < |r.pool| ensures GoodMsg(r.pool[i], r.announced) {
      GoodMsgGrows(s.pool[i], s.announced, r.announced);
    }
  }

  lemma {:induction false} StepKeepsMsgs(t: Torrent, s: System, e: Event)
    ensures GoodMsgs(s) && GoodTorrent(s) ==> GoodMsgs(Step(t, s, e)) && GoodTorrent(Step(t, s, e))
  {
    if GoodMsgs(s) && GoodTorrent(s) {
      if e.HaveEvent? || e.BitfieldEvent? || e.DownloadedEvent? {
        AnnouncingKeepsMsgs(t, s, e);
      } else if e.RequestEvent? {
        assert Step(t, s, e) == HandOut(s, e.id, e.wanted);
        HandOutKeepsMsgs(s, e.id, e.wanted);
      } else if e.ServeEvent? {
        if e.msg < |s.pool| && s.pool[e.msg].Ask? {
          ServeKeepsMsgs(t, s, e.msg, e.pending);
        }
      } else {
        OthersAreQuieter(t, s, e);
        QuieterKeepsMsgs(s, Step(t, s, e));
      }
    }
  }

  lemma {:induction false} RunKeepsMsgs(t: Torrent, s: System, es: seq<Event>, k: nat)
    requires k <= |es| && GoodMsgs(s) && GoodTorrent(s)
    ensures GoodMsgs(Run(t, s, es, k)) && GoodTorrent(Run(t, s, es, k))
  {
    hide Step, GoodMsgs, GoodTorrent;
    if k > 0 {
      RunKeepsMsgs(t, s, es, k - 1);
      StepKeepsMsgs(t, Run(t, s, es, k - 1), es[k - 1]);
    }
  }

  /** Over every run, in endgame too: a reply of the disk to a peer holds only blocks
      of pieces that peer has announced, by a `Have` or in a bitfield, before. */
  lemma {:induction false} RepliesWereAnnounced(t: Torrent, image: seq<byte>, have: seq<bool>, es: seq<Event>, k: nat, i: nat, b: BlockInfo)
    requires k <= |es| && i < |Run(t, Outset(image, have), es, k).pool|
    requires var m := Run(t, Outset(image, have), es, k).pool[i]; m.Reply? && b in m.blocks
    ensures AnnouncedBy(es, k, Run(t, Outset(image, have), es, k).pool[i].id, b.index)
  {
    var s := Run(t, Outset(image, have), es, k);
    RunKeepsMsgs(t, Outset(image, have), es, k);
    assert GoodMsg(s.pool[i], s.announced);
    AnnouncedFromEvents(t, Outset(image, have), es, k, s.pool[i].id, b.index);
  }
}
