/**
 One user's session: the images waiting to be converted and the two lifetime
 usage counters, with the free-tier quota and the transitions the bot's
 handlers make on them. The bot keeps one such record per user id; premium
 status comes from the ledger and never changes while the bot runs.
 */
module Session {
  import opened Text

  const IMAGE_LIMIT: nat := 7
  const PDF_LIMIT: nat := 7

  /** The `{'images_used': …, 'pdfs_generated': …}` entry of a user. */
  datatype Usage = Usage(imagesUsed: nat, pdfsGenerated: nat)

  /** A user's pending image paths (in upload order) and counters. */
  datatype Record = Record(pending: seq<string>, usage: Usage)

  /** What the `setdefault` calls create for a user seen for the first time. */
  const Fresh := Record([], Usage(0, 0))

  /** One page of the generated document, showing one image. */
  datatype Page = Page(image: string)

  /** The callback data of the four menu buttons; anything else matches no branch. */
  datatype Action = Send | Convert | Clear | GetPremium | Other(data: string)

  datatype UploadOutcome = ImageLimitReached | ImageSaved(path: string)

  datatype ConvertOutcome = NoImages | PdfLimitReached | Converted(doc: seq<Page>)

  /** What reaches a user's record: the start command, an image, a button press. */
  datatype Event = Started | ImageSent | Pressed(action: Action)

  /** `f"{user_id}_{len(USER_IMAGES[user_id])}.jpg"`. */
  function ImagePath(uid: int, index: nat): string {
    FormatInt(uid) + "_" + FormatInt(index) + ".jpg"
  }

  /** `f"{user_id}_output.pdf"`. */
  function OutputPath(uid: int): string {
    FormatInt(uid) + "_output.pdf"
  }

  /** The set of paths in a list. */
  function Elems(s: seq<string>): set<string> {
    set x | x in s
  }

  /** The document `create_pdf` builds: one page per image, in the given order. */
  function PagesOf(images: seq<string>): (doc: seq<Page>)
    ensures |doc| == |images|
  {
    seq(|images|, i requires 0 <= i < |images| => Page(images[i]))
  }

  /** `handle_image` once the record exists: the quota check, then the append and the count. */
  function AfterUpload(uid: int, premium: bool, r: Record): (UploadOutcome, Record) {
    if !premium && r.usage.imagesUsed >= IMAGE_LIMIT then (ImageLimitReached, r)
    else
      var path := ImagePath(uid, |r.pending|);
      var usage := if premium then r.usage else r.usage.(imagesUsed := r.usage.imagesUsed + 1);
      (ImageSaved(path), Record(r.pending + [path], usage))
  }

  /** The usage entry after a successful convert: the PDF is counted for a free user only. */
  function CountPdf(premium: bool, u: Usage): Usage {
    if premium then u else u.(pdfsGenerated := u.pdfsGenerated + 1)
  }

  /** `convert_from_button`: reject an empty list, then the PDF quota, else build and flush. */
  function AfterConvert(uid: int, premium: bool, r: Record): (ConvertOutcome, Record) {
    if r.pending == [] then (NoImages, r)
    else if !premium && r.usage.pdfsGenerated >= PDF_LIMIT then (PdfLimitReached, r)
    else
      (Converted(PagesOf(r.pending)), Record([], CountPdf(premium, r.usage)))
  }

  /** The "clear" button: the list is emptied, the counters stay. */
  function AfterClear(r: Record): Record {
    r.(pending := [])
  }

  /** The record after one event. */
  function Step(uid: int, premium: bool, r: Record, e: Event): Record {
    match e
    case Started => r
    case ImageSent => AfterUpload(uid, premium, r).1
    case Pressed(a) =>
      match a
      case Convert => AfterConvert(uid, premium, r).1
      case Clear => AfterClear(r)
      case _ => r
  }

  /** The record after a sequence of events, in order. */
  function Run(uid: int, premium: bool, r: Record, es: seq<Event>): Record
    decreases |es|
  {
    if es == [] then r else Run(uid, premium, Step(uid, premium, r, es[0]), es[1..])
  }

  /** The files an event deletes from disk (`os.remove` on the pending images and the output). */
  function Deleted(uid: int, premium: bool, r: Record, e: Event): set<string> {
    match e
    case Pressed(Clear) => Elems(r.pending)
    case Pressed(Convert) =>
      if AfterConvert(uid, premium, r).0.Converted? then Elems(r.pending) + {OutputPath(uid)} else {}
    case _ => {}
  }

  /** The files an event creates and keeps (`download_to_drive` of an accepted photo). */
  function Saved(uid: int, premium: bool, r: Record, e: Event): set<string> {
    match e
    case ImageSent =>
      var out := AfterUpload(uid, premium, r).0;
      if out.ImageSaved? then {out.path} else {}
    case _ => {}
  }

  /**
   The invariant of a record: the i-th pending path is `"{uid}_{i}.jpg"`; a
   premium user's counters are still zero; a free user has no more images
   pending than counted and neither counter is past its limit.
   */
  predicate Consistent(uid: int, premium: bool, r: Record) {
    (forall i :: 0 <= i < |r.pending| ==> r.pending[i] == ImagePath(uid, i)) &&
    if premium then r.usage == Usage(0, 0)
    else |r.pending| <= r.usage.imagesUsed <= IMAGE_LIMIT && r.usage.pdfsGenerated <= PDF_LIMIT
  }

  lemma FreshConsistent(uid: int, premium: bool)
    ensures Consistent(uid, premium, Fresh)
  {
  }

  /** A free user with `images_used >= IMAGE_LIMIT` is turned away and nothing changes; nobody else is. */
  lemma UploadRejected(uid: int, premium: bool, r: Record)
    ensures AfterUpload(uid, premium, r).0 == ImageLimitReached <==>
            !premium && r.usage.imagesUsed >= IMAGE_LIMIT
    ensures AfterUpload(uid, premium, r).0 == ImageLimitReached ==> AfterUpload(uid, premium, r).1 == r
  {
  }

  /**
   An accepted upload appends exactly one path, `"{uid}_{i}.jpg"` for the old
   length i, counts it for a free user only, and leaves the PDF counter alone.
   */
  lemma UploadAccepted(uid: int, premium: bool, r: Record)
    requires premium || r.usage.imagesUsed < IMAGE_LIMIT
    ensures var (out, r') := AfterUpload(uid, premium, r);
      out == ImageSaved(ImagePath(uid, |r.pending|)) &&
      r'.pending == r.pending + [out.path] &&
      r'.usage.imagesUsed == r.usage.imagesUsed + (if premium then 0 else 1) &&
      r'.usage.pdfsGenerated == r.usage.pdfsGenerated
  {
  }

  /**
   Convert is turned away, with nothing changed, exactly when the list is
   empty or a free user has reached the PDF limit, whatever is pending.
   */
  lemma ConvertRejected(uid: int, premium: bool, r: Record)
    ensures !AfterConvert(uid, premium, r).0.Converted? <==>
            r.pending == [] || (!premium && r.usage.pdfsGenerated >= PDF_LIMIT)
    ensures r.pending == [] ==> AfterConvert(uid, premium, r).0 == NoImages
    ensures r.pending != [] && !premium && r.usage.pdfsGenerated >= PDF_LIMIT ==>
            AfterConvert(uid, premium, r).0 == PdfLimitReached
    ensures !AfterConvert(uid, premium, r).0.Converted? ==> AfterConvert(uid, premium, r).1 == r
  {
  }

  /**
   A successful convert hands over a document whose pages are the pending
   images in upload order, empties the list, and counts one PDF for a free
   user only.
   */
  lemma ConvertAccepted(uid: int, premium: bool, r: Record)
    requires r.pending != [] && (premium || r.usage.pdfsGenerated < PDF_LIMIT)
    ensures var (out, r') := AfterConvert(uid, premium, r);
      out.Converted? && |out.doc| == |r.pending| &&
      (forall i :: 0 <= i < |r.pending| ==> out.doc[i].image == r.pending[i]) &&
      r'.pending == [] &&
      r'.usage.pdfsGenerated == r.usage.pdfsGenerated + (if premium then 0 else 1) &&
      r'.usage.imagesUsed == r.usage.imagesUsed
  {
  }

  /** Clear always empties the list and never touches the counters. */
  lemma ClearSpec(r: Record)
    ensures AfterClear(r).pending == [] && AfterClear(r).usage == r.usage
  {
  }

  /** Premium users are never rejected by either quota check, whatever their counters. */
  lemma PremiumNeverRejected(uid: int, r: Record)
    ensures AfterUpload(uid, true, r).0.ImageSaved?
    ensures AfterConvert(uid, true, r).0.Converted? <==> r.pending != []
  {
  }

  /** Every event keeps a record consistent. */
  lemma StepConsistent(uid: int, premium: bool, r: Record, e: Event)
    requires Consistent(uid, premium, r)
    ensures Consistent(uid, premium, Step(uid, premium, r, e))
  {
    if e == ImageSent {
      var r' := Step(uid, premium, r, e);
      if !(!premium && r.usage.imagesUsed >= IMAGE_LIMIT) {
        assert r'.pending == r.pending + [ImagePath(uid, |r.pending|)];
        assert forall i :: 0 <= i < |r.pending| ==> r'.pending[i] == r.pending[i];
      }
    }
  }

  /** Runs of events keep a record consistent. */
  lemma {:induction false} RunConsistent(uid: int, premium: bool, r: Record, es: seq<Event>)
    requires Consistent(uid, premium, r)
    ensures Consistent(uid, premium, Run(uid, premium, r, es))
    decreases |es|
  {
    if es != [] {
      StepConsistent(uid, premium, r, es[0]);
      RunConsistent(uid, premium, Step(uid, premium, r, es[0]), es[1..]);
    }
  }

  /**
   The quota holds across any sequence of events: a free user, starting from
   zero counters, never counts more than IMAGE_LIMIT images or PDF_LIMIT PDFs
   and never has more images pending than counted; a premium user's counters
   never move off zero.
   */
  lemma QuotaNeverExceeded(uid: int, premium: bool, es: seq<Event>)
    ensures var r := Run(uid, premium, Fresh, es);
      (!premium ==> |r.pending| <= r.usage.imagesUsed <= IMAGE_LIMIT && r.usage.pdfsGenerated <= PDF_LIMIT) &&
      (premium ==> r.usage == Usage(0, 0))
  {
    RunConsistent(uid, premium, Fresh, es);
  }

  /** The counters are lifetime totals: no event lowers them. */
  lemma {:induction false} CountersNeverDecrease(uid: int, premium: bool, r: Record, es: seq<Event>)
    ensures var r' := Run(uid, premium, r, es);
      r.usage.imagesUsed <= r'.usage.imagesUsed && r.usage.pdfsGenerated <= r'.usage.pdfsGenerated
    decreases |es|
  {
    if es != [] {
      CountersNeverDecrease(uid, premium, Step(uid, premium, r, es[0]), es[1..]);
    }
  }

  /** The position of the first '_' in a string, or its length when there is none. */
  function UnderscoreAt(s: string): (k: nat)
    ensures k <= |s|
  {
    if s == [] || s[0] == '_' then 0 else 1 + UnderscoreAt(s[1..])
  }

  lemma {:induction false} UnderscoreAfterId(a: string, rest: string)
    requires forall k :: 0 <= k < |a| ==> a[k] != '_'
    ensures UnderscoreAt(a + "_" + rest) == |a|
    decreases |a|
  {
    if a != [] {
      assert (a + "_" + rest)[1..] == a[1..] + "_" + rest;
      UnderscoreAfterId(a[1..], rest);
    }
  }

  /** Upload paths of different users, or of different slots, never collide. */
  lemma ImagePathInjective(u: int, i: nat, v: int, j: nat)
    requires ImagePath(u, i) == ImagePath(v, j)
    ensures u == v && i == j
  {
    var a, b := FormatInt(u), FormatInt(v);
    var x, y := FormatInt(i), FormatInt(j);
    var p := ImagePath(u, i);
    // str(uid) holds no '_', so the first '_' of the path ends it
    UnderscoreAfterId(a, x + ".jpg");
    UnderscoreAfterId(b, y + ".jpg");
    assert a + "_" + (x + ".jpg") == p == b + "_" + (y + ".jpg");
    assert |a| == |b|;
    assert a == p[..|a|] == b;
    FormatIntInjective(u, v);
    assert |x| == |y|;
    assert x == p[|a| + 1..|a| + 1 + |x|] == y;
    FormatIntInjective(i, j);
  }

  /** The output file never has the name of an upload. */
  lemma OutputNotImage(u: int, v: int, j: nat)
    ensures OutputPath(u) != ImagePath(v, j)
  {
    var o, p := OutputPath(u), ImagePath(v, j);
    assert o[|o| - 3] == 'p';
    assert p[|p| - 3] == 'j';
  }

  /** The pending paths of a consistent record are pairwise distinct. */
  lemma PendingDistinct(uid: int, premium: bool, r: Record, i: nat, j: nat)
    requires Consistent(uid, premium, r)
    requires i < |r.pending| && j < |r.pending| && i != j
    ensures r.pending[i] != r.pending[j]
  {
    assert r.pending[i] == ImagePath(uid, i) && r.pending[j] == ImagePath(uid, j);
    if r.pending[i] == r.pending[j] {
      ImagePathInjective(uid, i, uid, j);
    }
  }

  /** `n` uploads in a row. */
  function Uploads(n: nat): (es: seq<Event>)
    ensures |es| == n && forall k :: 0 <= k < n ==> es[k] == ImageSent
  {
    if n == 0 then [] else [ImageSent] + Uploads(n - 1)
  }

  /** The first `n` upload paths of a user. */
  function Paths(uid: int, n: nat): (ps: seq<string>)
    ensures |ps| == n && forall k :: 0 <= k < n ==> ps[k] == ImagePath(uid, k)
  {
    seq(n, k requires 0 <= k < n => ImagePath(uid, k))
  }

  /** Accepted uploads fill the list with `"{uid}_0.jpg"`, `"{uid}_1.jpg"`, … in order. */
  lemma {:induction false} UploadsFill(uid: int, premium: bool, k: nat, c: nat, d: nat, n: nat)
    requires !premium ==> c + n <= IMAGE_LIMIT
    ensures Run(uid, premium, Record(Paths(uid, k), Usage(c, d)), Uploads(n)) ==
            Record(Paths(uid, k + n), Usage(if premium then c else c + n, d))
    decreases n
  {
    if n > 0 {
      var r := Record(Paths(uid, k), Usage(c, d));
      var c' := if premium then c else c + 1;
      assert Paths(uid, k) + [ImagePath(uid, k)] == Paths(uid, k + 1);
      assert Step(uid, premium, r, ImageSent) == Record(Paths(uid, k + 1), Usage(c', d));
      assert Uploads(n)[1..] == Uploads(n - 1);
      UploadsFill(uid, premium, k + 1, c', d, n - 1);
    }
  }

  /**
   A free user uploads seven images, all accepted; the eighth is refused;
   convert then yields a seven-page document in upload order; a second
   convert finds no images.
   */
  lemma FreeTierScenario(uid: int)
    ensures var r7 := Run(uid, false, Fresh, Uploads(7));
      r7 == Record(Paths(uid, 7), Usage(7, 0)) &&
      AfterUpload(uid, false, r7).0 == ImageLimitReached &&
      AfterConvert(uid, false, r7).0 == Converted(PagesOf(Paths(uid, 7))) &&
      AfterConvert(uid, false, AfterConvert(uid, false, r7).1).0 == NoImages
  {
    assert Paths(uid, 0) == [];
    UploadsFill(uid, false, 0, 0, 0, 7);
  }

  /** A premium user uploads ten images, all accepted, and gets a ten-page document; counters stay zero. */
  lemma PremiumScenario(uid: int)
    ensures var r10 := Run(uid, true, Fresh, Uploads(10));
      r10 == Record(Paths(uid, 10), Usage(0, 0)) &&
      AfterConvert(uid, true, r10) == (Converted(PagesOf(Paths(uid, 10))), Fresh)
  {
    assert Paths(uid, 0) == [];
    UploadsFill(uid, true, 0, 0, 0, 10);
  }
}
