/**
 The bot's process state and its handlers. The source keeps the state in
 module globals; here it is one object: the premium set loaded at start-up,
 the per-user pending image lists and usage counters, the upgrade-prompt log
 file, and (as a ghost) the set of files on disk that the handlers create and
 delete. Messages, keyboards and the PDF library are outside the model; a
 handler's reply is its returned outcome.
 */
module Bot {
  import opened Wrappers
  import opened Text
  import opened Session
  import Ledger
  import SeenLog

  /** `create_pdf`: one page per image, added in list order. */
  method CreatePdf(images: seq<string>) returns (doc: seq<Page>)
    ensures doc == PagesOf(images)
  {
    doc := [];
    for i := 0 to |images|
      invariant |doc| == i
      invariant forall k :: 0 <= k < i ==> doc[k] == Page(images[k])
    {
      doc := doc + [Page(images[i])];
    }
  }

  /** An update from the platform: who sent it, and what it was. */
  datatype Update = Update(uid: int, event: Event)

  /** The events of one user, in the order they arrived. */
  function EventsOf(uid: int, updates: seq<Update>): seq<Event> {
    if updates == [] then []
    else
      var last := updates[|updates| - 1];
      EventsOf(uid, updates[..|updates| - 1]) + if last.uid == uid then [last.event] else []
  }

  /** The upgrade-prompt log after one update: only a "get premium" press touches it. */
  function LogAfter(log: Option<string>, u: Update): Option<string> {
    if u.event == Pressed(GetPremium) then Some(SeenLog.Recorded(log, u.uid)) else log
  }

  /** The upgrade-prompt log after a sequence of updates, in order. */
  function LogAll(log: Option<string>, updates: seq<Update>): Option<string> {
    if updates == [] then log
    else LogAfter(LogAll(log, updates[..|updates| - 1]), updates[|updates| - 1])
  }

  /** A user's record in a map of records, or the one `setdefault` would create. */
  function RecordIn(records: map<int, Record>, uid: int): Record {
    if uid in records then records[uid] else Fresh
  }

  /**
   The files on disk after a sequence of updates: each update deletes and
   saves the files its sender's record and event call for, the record being
   what that user's earlier events made of it.
   */
  function DiskAll(premium: set<int>, records: map<int, Record>, disk: set<string>, updates: seq<Update>): set<string> {
    if updates == [] then disk
    else
      var init, u := updates[..|updates| - 1], updates[|updates| - 1];
      var r := Run(u.uid, u.uid in premium, RecordIn(records, u.uid), EventsOf(u.uid, init));
      (DiskAll(premium, records, disk, init) - Deleted(u.uid, u.uid in premium, r, u.event))
        + Saved(u.uid, u.uid in premium, r, u.event)
  }

  /** Starting from a missing or terminated log, the log stays terminated over any run. */
  lemma {:induction false} LogAllTerminated(log: Option<string>, updates: seq<Update>)
    requires log.None? || Terminated(log.value)
    ensures var l := LogAll(log, updates); l.None? || Terminated(l.value)
  {
    if updates != [] {
      var init := updates[..|updates| - 1];
      LogAllTerminated(log, init);
      SeenLog.RecordedTerminated(LogAll(log, init), updates[|updates| - 1].uid);
    }
  }

  /**
   Starting from a missing or terminated log, once a user has pressed "get
   premium" during a run, their id is among the log's stripped lines at the
   end of the run, whoever presses after them.
   */
  lemma {:induction false} LogAllContains(log: Option<string>, updates: seq<Update>, i: nat)
    requires log.None? || Terminated(log.value)
    requires i < |updates| && updates[i].event == Pressed(GetPremium)
    ensures var l := LogAll(log, updates);
      l.Some? && FormatInt(updates[i].uid) in SeenLog.SeenIds(l.value)
  {
    var init, u := updates[..|updates| - 1], updates[|updates| - 1];
    var uid := updates[i].uid;
    var before := LogAll(log, init);
    LogAllTerminated(log, init);
    if i == |updates| - 1 {
      SeenLog.RecordedContains(before, uid);
    } else {
      assert init[i] == updates[i];
      LogAllContains(log, init, i);
      if u.event == Pressed(GetPremium) {
        var ids := SeenLog.SeenIds(before.value);
        var ids' := SeenLog.SeenIds(SeenLog.Recorded(before, u.uid));
        SeenLog.RecordedKeepsEarlier(before, u.uid);
        var k :| 0 <= k < |ids| && ids[k] == FormatInt(uid);
        assert ids'[..|ids|][k] == ids'[k];
      }
    }
  }

  lemma {:induction false} RunSnoc(uid: int, premium: bool, r: Record, es: seq<Event>, e: Event)
    ensures Run(uid, premium, r, es + [e]) == Step(uid, premium, Run(uid, premium, r, es), e)
    decreases |es|
  {
    if es == [] {
      assert [] + [e] == [e];
      assert [e][1..] == [];
    } else {
      assert (es + [e])[1..] == es[1..] + [e];
      RunSnoc(uid, premium, Step(uid, premium, r, es[0]), es[1..], e);
    }
  }

  /** A second update of the same key overrides the first. */
  lemma UpdateTwice<K, V>(m: map<K, V>, k: K, a: V, b: V)
    ensures m[k := a][k := b] == m[k := b]
  {
  }

  /**
   The session invariant over the three maps: users with images are users
   with counters, every record is consistent, and every pending image is on disk.
   */
  ghost predicate Tracked(premium: set<int>, images: map<int, seq<string>>, usage: map<int, Usage>, disk: set<string>) {
    images.Keys == usage.Keys &&
    (forall uid :: uid in images ==> Consistent(uid, uid in premium, Record(images[uid], usage[uid]))) &&
    (forall uid, i :: uid in images && 0 <= i < |images[uid]| ==> images[uid][i] in disk)
  }

  /** A path of user `v` is none of the pending images of another user `uid`, nor their output file. */
  lemma NotOthersFile(uid: int, premium: bool, r: Record, v: int, j: nat)
    requires Consistent(uid, premium, r) && v != uid
    ensures ImagePath(v, j) !in Elems(r.pending) && ImagePath(v, j) != OutputPath(uid)
  {
    OutputNotImage(uid, v, j);
    forall i | 0 <= i < |r.pending| ensures r.pending[i] != ImagePath(v, j) {
      assert r.pending[i] == ImagePath(uid, i);
      if r.pending[i] == ImagePath(v, j) {
        ImagePathInjective(uid, i, v, j);
      }
    }
  }

  /**
   Replacing one user's record by a consistent one keeps the invariant, as
   long as that user's new pending images are on disk and the only files
   that went away were that user's old images or output.
   */
  lemma TrackedUpdate(premium: set<int>, images: map<int, seq<string>>, usage: map<int, Usage>, disk: set<string>,
                      uid: int, r: Record, disk': set<string>)
    requires Tracked(premium, images, usage, disk)
    requires Consistent(uid, uid in premium, r)
    requires forall i :: 0 <= i < |r.pending| ==> r.pending[i] in disk'
    requires var mine := if uid in images then Elems(images[uid]) else {};
      disk - disk' <= mine + {OutputPath(uid)}
    ensures Tracked(premium, images[uid := r.pending], usage[uid := r.usage], disk')
  {
    var images', usage' := images[uid := r.pending], usage[uid := r.usage];
    forall v, j | v in images' && 0 <= j < |images'[v]| ensures images'[v][j] in disk' {
      if v != uid {
        var p := images[v][j];
        assert images'[v][j] == p == ImagePath(v, j) && p in disk;
        var mine := if uid in images then Elems(images[uid]) else {};
        if uid in images {
          NotOthersFile(uid, uid in premium, Record(images[uid], usage[uid]), v, j);
        } else {
          OutputNotImage(uid, v, j);
        }
        assert p !in mine + {OutputPath(uid)};
      }
    }
  }

  /** An upload, accepted or refused, keeps the invariant. */
  lemma UploadKeepsTracked(premium: set<int>, images: map<int, seq<string>>, usage: map<int, Usage>, disk: set<string>, uid: int)
    requires Tracked(premium, images, usage, disk) && uid in images
    ensures var (out, r1) := AfterUpload(uid, uid in premium, Record(images[uid], usage[uid]));
      Tracked(premium, images[uid := r1.pending], usage[uid := r1.usage],
              if out.ImageSaved? then disk + {out.path} else disk)
  {
    var r0 := Record(images[uid], usage[uid]);
    var (out, r1) := AfterUpload(uid, uid in premium, r0);
    StepConsistent(uid, uid in premium, r0, ImageSent);
    var disk' := if out.ImageSaved? then disk + {out.path} else disk;
    assert forall i :: 0 <= i < |r0.pending| ==> r0.pending[i] in disk;
    TrackedUpdate(premium, images, usage, disk, uid, r1, disk');
  }

  /** A successful convert keeps the invariant once the images and the document are deleted. */
  lemma ConvertKeepsTracked(premium: set<int>, images: map<int, seq<string>>, usage: map<int, Usage>, disk: set<string>, uid: int)
    requires Tracked(premium, images, usage, disk) && uid in images && images[uid] != []
    requires uid in premium || usage[uid].pdfsGenerated < PDF_LIMIT
    ensures AfterConvert(uid, uid in premium, Record(images[uid], usage[uid])) ==
      (Converted(PagesOf(images[uid])), Record([], CountPdf(uid in premium, usage[uid])))
    ensures Tracked(premium, images[uid := []], usage[uid := CountPdf(uid in premium, usage[uid])],
                    disk - (Elems(images[uid]) + {OutputPath(uid)}))
  {
    var r0 := Record(images[uid], usage[uid]);
    var r1 := AfterConvert(uid, uid in premium, r0).1;
    StepConsistent(uid, uid in premium, r0, Pressed(Convert));
    assert forall i :: 0 <= i < |r0.pending| ==> r0.pending[i] in disk;
    TrackedUpdate(premium, images, usage, disk, uid, r1, disk - (Elems(images[uid]) + {OutputPath(uid)}));
  }

  /** Before a convert, the user's images are distinct files on disk, none named like the document. */
  lemma ConvertFilesReady(premium: set<int>, images: map<int, seq<string>>, usage: map<int, Usage>, disk: set<string>, uid: int)
    requires Tracked(premium, images, usage, disk) && uid in images
    ensures forall i, j :: 0 <= i < j < |images[uid]| ==> images[uid][i] != images[uid][j]
    ensures forall i :: 0 <= i < |images[uid]| ==> images[uid][i] in disk
    ensures OutputPath(uid) !in Elems(images[uid])
  {
    var r0 := Record(images[uid], usage[uid]);
    assert Consistent(uid, uid in premium, r0);
    forall i, j | 0 <= i < j < |r0.pending| ensures r0.pending[i] != r0.pending[j] {
      PendingDistinct(uid, uid in premium, r0, i, j);
    }
    forall i | 0 <= i < |r0.pending| ensures r0.pending[i] != OutputPath(uid) {
      OutputNotImage(uid, uid, i);
    }
  }

  /** Clearing keeps the invariant once the user's images are deleted. */
  lemma ClearKeepsTracked(premium: set<int>, images: map<int, seq<string>>, usage: map<int, Usage>, disk: set<string>, uid: int)
    requires Tracked(premium, images, usage, disk) && uid in images
    ensures Tracked(premium, images[uid := []], usage[uid := usage[uid]], disk - Elems(images[uid]))
  {
    var r0 := Record(images[uid], usage[uid]);
    StepConsistent(uid, uid in premium, r0, Pressed(Clear));
    TrackedUpdate(premium, images, usage, disk, uid, AfterClear(r0), disk - Elems(images[uid]));
  }

  class Bot {
    /** The premium ledger file as found at start-up (`None` when missing). */
    ghost const ledgerFile: Option<string>
    /** `PREMIUM_USERS`: filled once at start-up, never changed afterwards. */
    const premium: set<int>
    /** `USER_IMAGES`. */
    var images: map<int, seq<string>>
    /** `USER_USAGE`. */
    var usage: map<int, Usage>
    /** The contents of the upgrade-prompt log file (`None` while it does not exist). */
    var seenLog: Option<string>
    /** The paths of the files on disk. */
    ghost var disk: set<string>

    /** The premium set is the one the ledger file yields; both are fixed at start-up. */
    ghost predicate Loaded() {
      premium == Ledger.LedgerSet(ledgerFile)
    }

    ghost predicate Valid()
      reads this
    {
      Tracked(premium, images, usage, disk)
    }

    /** Every user's record, keyed by user id. */
    ghost function Records(): map<int, Record>
      reads this
    {
      map uid | uid in images && uid in usage :: Record(images[uid], usage[uid])
    }

    /** A user's record, or the one `setdefault` would create. */
    ghost function RecordOf(uid: int): Record
      reads this
    {
      RecordIn(Records(), uid)
    }

    /** Start-up: load the premium ledger, begin with no users. */
    constructor (ledgerFile: Option<string>, seenFile: Option<string>, ghost files: set<string>)
      ensures Valid() && Loaded()
      ensures this.ledgerFile == ledgerFile && premium == Ledger.LedgerSet(ledgerFile)
      ensures images == map[] && usage == map[] && seenLog == seenFile && disk == files
    {
      var ids := Ledger.LoadPremium(ledgerFile);
      this.ledgerFile := ledgerFile;
      premium := ids;
      images := map[];
      usage := map[];
      seenLog := seenFile;
      disk := files;
    }

    /** `is_premium`: membership in the set loaded from the ledger. */
    function IsPremium(uid: int): (r: bool)
      requires Loaded()
      ensures r <==> uid in Ledger.LedgerSet(ledgerFile)
    {
      uid in premium
    }

    /** The `setdefault` pair: zero counters and an empty list, only for a user not seen before. */
    method EnsureRecord(uid: int)
      requires Valid()
      modifies this
      ensures Valid()
      ensures uid in images && uid in usage
      ensures old(uid in images) ==> images == old(images) && usage == old(usage)
      ensures images == old(images)[uid := images[uid]] && usage == old(usage)[uid := usage[uid]]
      ensures RecordOf(uid) == old(RecordOf(uid))
      ensures seenLog == old(seenLog) && disk == old(disk)
    {
      ghost var images0, usage0 := images, usage;
      if uid !in usage {
        usage := usage[uid := Usage(0, 0)];
      }
      if uid !in images {
        images := images[uid := []];
      }
      if uid !in images0 {
        FreshConsistent(uid, uid in premium);
        TrackedUpdate(premium, images0, usage0, disk, uid, Fresh, disk);
      }
    }

    /** The start command: makes sure the user has a record; the menu is a reply. */
    method Start(uid: int)
      requires Valid()
      modifies this
      ensures Valid()
      ensures uid in images && uid in usage
      ensures images == old(images)[uid := images[uid]] && usage == old(usage)[uid := usage[uid]]
      ensures RecordOf(uid) == Step(uid, uid in premium, old(RecordOf(uid)), Started)
      ensures seenLog == old(seenLog) && disk == old(disk)
    {
      EnsureRecord(uid);
    }

    /**
     `handle_image`: refuse a free user at the image limit; otherwise download
     the photo to `"{uid}_{len}.jpg"`, append that path and count it for a free
     user.
     */
    method HandleImage(uid: int) returns (outcome: UploadOutcome)
      requires Valid() && Loaded()
      modifies this
      ensures Valid()
      ensures uid in images && uid in usage
      ensures images == old(images)[uid := images[uid]] && usage == old(usage)[uid := usage[uid]]
      ensures (outcome, RecordOf(uid)) == AfterUpload(uid, uid in premium, old(RecordOf(uid)))
      ensures disk == if outcome.ImageSaved? then old(disk) + {outcome.path} else old(disk)
      ensures seenLog == old(seenLog)
    {
      EnsureRecord(uid);
      ghost var r0 := RecordOf(uid);
      UploadKeepsTracked(premium, images, usage, disk, uid);
      var free := !IsPremium(uid);
      if free && usage[uid].imagesUsed >= IMAGE_LIMIT {
        outcome := ImageLimitReached;
        return;
      }
      var path := ImagePath(uid, |images[uid]|);
      ghost var images0, usage0 := images, usage;
      disk := disk + {path};
      images := images[uid := images[uid] + [path]];
      if free {
        usage := usage[uid := usage[uid].(imagesUsed := usage[uid].imagesUsed + 1)];
      }
      outcome := ImageSaved(path);
      ghost var r1 := Record(images[uid], usage[uid]);
      assert AfterUpload(uid, uid in premium, r0) == (outcome, r1);
      UpdateTwice(old(images), uid, images0[uid], r1.pending);
      UpdateTwice(old(usage), uid, usage0[uid], r1.usage);
    }

    /**
     `convert_from_button`: refuse an empty list, then a free user at the PDF
     limit; otherwise build the document from the list in order, write it,
     delete every image and the document, empty the list and count the PDF
     for a free user.
     */
    method ConvertFromButton(uid: int) returns (outcome: ConvertOutcome)
      requires Valid() && Loaded()
      modifies this
      ensures Valid()
      ensures (outcome, RecordOf(uid)) == AfterConvert(uid, uid in premium, old(RecordOf(uid)))
      ensures !outcome.Converted? ==> images == old(images) && usage == old(usage)
      ensures outcome.Converted? ==>
        uid in old(images) && uid in usage &&
        images == old(images)[uid := []] && usage == old(usage)[uid := usage[uid]]
      ensures disk == old(disk) - Deleted(uid, uid in premium, old(RecordOf(uid)), Pressed(Convert))
      ensures seenLog == old(seenLog)
    {
      var pending := if uid in images then images[uid] else [];
      if pending == [] {
        outcome := NoImages;
        return;
      }
      if !IsPremium(uid) && usage[uid].pdfsGenerated >= PDF_LIMIT {
        outcome := PdfLimitReached;
        return;
      }
      var doc := Flush(uid);
      outcome := Converted(doc);
    }

    /**
     The successful part of `convert_from_button`: build and write the
     document, send it, remove every image and the document, empty the list
     and count the PDF for a free user.
     */
    method Flush(uid: int) returns (doc: seq<Page>)
      requires Valid() && Loaded() && uid in images && images[uid] != []
      requires uid in premium || usage[uid].pdfsGenerated < PDF_LIMIT
      modifies this
      ensures Valid()
      ensures (Converted(doc), RecordOf(uid)) == AfterConvert(uid, uid in premium, old(RecordOf(uid)))
      ensures uid in usage && images == old(images)[uid := []] && usage == old(usage)[uid := usage[uid]]
      ensures disk == old(disk) - (Elems(old(images[uid])) + {OutputPath(uid)})
      ensures seenLog == old(seenLog)
    {
      var pending := images[uid];
      ghost var u1 := CountPdf(uid in premium, usage[uid]);
      ConvertKeepsTracked(premium, images, usage, disk, uid);
      ConvertFilesReady(premium, images, usage, disk, uid);
      doc := CreatePdf(pending);
      WriteAndRemove(pending, OutputPath(uid));
      images := images[uid := []];
      if !IsPremium(uid) {
        usage := usage[uid := usage[uid].(pdfsGenerated := usage[uid].pdfsGenerated + 1)];
      } else {
        assert usage[uid := u1] == usage;
      }
    }

    /**
     The file effects of a successful convert: the document is written, sent,
     and then every source image and the document are removed; no removal
     meets a missing file.
     */
    method WriteAndRemove(paths: seq<string>, out: string)
      requires forall i, j :: 0 <= i < j < |paths| ==> paths[i] != paths[j]
      requires forall i :: 0 <= i < |paths| ==> paths[i] in disk
      requires out !in Elems(paths)
      modifies this`disk
      ensures disk == old(disk) - (Elems(paths) + {out})
    {
      disk := disk + {out};
      RemoveAll(paths);
      assert out in disk;
      disk := disk - {out};
    }

    /**
     `os.remove` on each path in turn; each must exist, which the distinct
     paths, all on disk, guarantee.
     */
    method RemoveAll(paths: seq<string>)
      requires forall i, j :: 0 <= i < j < |paths| ==> paths[i] != paths[j]
      requires forall i :: 0 <= i < |paths| ==> paths[i] in disk
      modifies this`disk
      ensures disk == old(disk) - Elems(paths)
    {
      for k := 0 to |paths|
        invariant disk == old(disk) - Elems(paths[..k])
        invariant forall j :: k <= j < |paths| ==> paths[j] in disk
      {
        assert paths[k] in disk;
        assert paths[..k + 1] == paths[..k] + [paths[k]];
        disk := disk - {paths[k]};
      }
      assert paths[..|paths|] == paths;
    }

    /** The "clear" button: remove each pending image that exists, empty the list. */
    method ClearImages(uid: int)
      requires Valid() && uid in images
      modifies this
      ensures Valid()
      ensures images == old(images)[uid := []] && usage == old(usage)
      ensures disk == old(disk) - Elems(old(images[uid]))
      ensures seenLog == old(seenLog)
    {
      var pending := images[uid];
      ClearKeepsTracked(premium, images, usage, disk, uid);
      ghost var disk0 := disk;
      for k := 0 to |pending|
        invariant disk == disk0 - Elems(pending[..k])
      {
        assert pending[..k + 1] == pending[..k] + [pending[k]];
        if pending[k] in disk {
          disk := disk - {pending[k]};
        }
      }
      assert pending[..|pending|] == pending;
      images := images[uid := []];
      assert usage[uid := usage[uid]] == usage;
    }

    /**
     The "get premium" button: create the log file if missing, read its
     stripped lines and append the user's id only if none equals it.
     */
    method ShowPremium(uid: int)
      requires Valid()
      modifies this`seenLog
      ensures Valid()
      ensures seenLog == Some(SeenLog.Recorded(old(seenLog), uid))
    {
      var content := if seenLog.Some? then seenLog.value else "";
      if seenLog.None? {
        seenLog := Some(content);
      }
      var seen := SeenLog.ReadSeenIds(content);
      if FormatInt(uid) !in seen {
        seenLog := Some(content + FormatInt(uid) + "\n");
      }
    }

    /** `button_handler`: make sure the record exists, then act on the button's data. */
    method Press(uid: int, action: Action) returns (conv: Option<ConvertOutcome>)
      requires Valid() && Loaded()
      modifies this
      ensures Valid()
      ensures uid in images && uid in usage
      ensures images == old(images)[uid := images[uid]] && usage == old(usage)[uid := usage[uid]]
      ensures RecordOf(uid) == Step(uid, uid in premium, old(RecordOf(uid)), Pressed(action))
      ensures conv == if action.Convert? then Some(AfterConvert(uid, uid in premium, old(RecordOf(uid))).0) else None
      ensures disk == old(disk) - Deleted(uid, uid in premium, old(RecordOf(uid)), Pressed(action))
      ensures seenLog == if action.GetPremium? then Some(SeenLog.Recorded(old(seenLog), uid)) else old(seenLog)
    {
      EnsureRecord(uid);
      conv := None;
      match action {
        case Send =>
        case Convert =>
          var c := ConvertFromButton(uid);
          conv := Some(c);
        case Clear =>
          ClearImages(uid);
        case GetPremium =>
          ShowPremium(uid);
        case Other(_) =>
      }
    }

    /** Dispatches one update to its handler. */
    method Handle(u: Update)
      requires Valid() && Loaded()
      modifies this
      ensures Valid()
      ensures RecordOf(u.uid) == Step(u.uid, u.uid in premium, old(RecordOf(u.uid)), u.event)
      ensures forall v :: v != u.uid ==> RecordOf(v) == old(RecordOf(v))
      ensures u.uid in images && u.uid in usage
      ensures images == old(images)[u.uid := images[u.uid]] && usage == old(usage)[u.uid := usage[u.uid]]
      ensures disk == (old(disk) - Deleted(u.uid, u.uid in premium, old(RecordOf(u.uid)), u.event))
                      + Saved(u.uid, u.uid in premium, old(RecordOf(u.uid)), u.event)
      ensures seenLog == LogAfter(old(seenLog), u)
    {
      match u.event {
        case Started =>
          Start(u.uid);
        case ImageSent =>
          var _ := HandleImage(u.uid);
        case Pressed(a) =>
          var _ := Press(u.uid, a);
      }
    }

    /**
     Any sequence of updates: the object invariant (and with it the quota)
     holds throughout, and each user's record is what that user's own events
     make of it, whatever other users do in between.
     */
    method HandleAll(updates: seq<Update>)
      requires Valid() && Loaded()
      modifies this
      ensures Valid()
      ensures forall uid :: RecordOf(uid) == Run(uid, uid in premium, old(RecordOf(uid)), EventsOf(uid, updates))
      ensures disk == DiskAll(premium, old(Records()), old(disk), updates)
      ensures seenLog == LogAll(old(seenLog), updates)
    {
      ghost var records := Records();
      for i := 0 to |updates|
        invariant Valid()
        invariant forall uid :: RecordOf(uid) == Run(uid, uid in premium, old(RecordOf(uid)), EventsOf(uid, updates[..i]))
        invariant disk == DiskAll(premium, records, old(disk), updates[..i])
        invariant seenLog == LogAll(old(seenLog), updates[..i])
      {
        label Before:
        ghost var r := RecordOf(updates[i].uid);
        assert r == Run(updates[i].uid, updates[i].uid in premium, RecordIn(records, updates[i].uid),
                        EventsOf(updates[i].uid, updates[..i]));
        Handle(updates[i]);
        assert updates[..i + 1][..i] == updates[..i];
        assert updates[..i + 1][i] == updates[i];
        forall uid ensures RecordOf(uid) == Run(uid, uid in premium, old(RecordOf(uid)), EventsOf(uid, updates[..i + 1])) {
          var es := EventsOf(uid, updates[..i]);
          if updates[i].uid == uid {
            assert EventsOf(uid, updates[..i + 1]) == es + [updates[i].event];
            RunSnoc(uid, uid in premium, old(RecordOf(uid)), es, updates[i].event);
          } else {
            assert EventsOf(uid, updates[..i + 1]) == es + [];
            assert es + [] == es;
            assert RecordOf(uid) == old@Before(RecordOf(uid));
          }
        }
      }
      assert updates[..|updates|] == updates;
    }
  }
}
