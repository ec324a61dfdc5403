/**
 The script that fetches a base image onto a KVM host: an image, a partial download, and a marker naming the digest
 and size of the image that was last verified.

 SHA-256 is any function from contents to digests. What a mirror delivers, or leaves behind in the partial download
 when it fails, is arbitrary.
 */
module ImageCache {
  import opened Wrappers

  type Content = string
  type Digest = string
  type Hash = Content -> Digest

  datatype Marker = Marker(digest: Digest, size: nat)
  datatype Files = Files(image: Option<Content>, part: Option<Content>, marker: Option<Marker>,
                         corrupt: Option<Content>)

  /** One curl run: the completed download, or a failure and the partial download it leaves. */
  datatype Delivery = Delivered(content: Content) | Failed(part: Option<Content>)

  datatype Exit = Cached | Downloaded | NoDigest | NoSource | Mismatch

  /** grep -Eq '^[0-9a-f]{64}$' */
  predicate IsSha256(d: Digest) {
    |d| == 64 && forall i :: 0 <= i < 64 ==> '0' <= d[i] <= '9' || 'a' <= d[i] <= 'f'
  }

  /** The marker names the wanted digest and the size of the image that is there. */
  predicate Verified(f: Files, want: Digest) {
    f.image.Some? && f.marker == Some(Marker(want, |f.image.value|))
  }

  /** The states one run passes through, first to last, and how it ends. */
  datatype Run = Run(states: seq<Files>, exit: Exit)

  /** The states of the download loop, and whether some mirror delivered. */
  function Download(f: Files, deliveries: seq<Delivery>): (r: (seq<Files>, bool))
    ensures forall i :: 0 <= i < |r.0| ==> r.0[i] == f.(part := r.0[i].part)
    ensures r.1 ==> r.0 != [] && r.0[|r.0| - 1].part.Some?
    decreases |deliveries|
  {
    if deliveries == [] then ([], false)
    else match deliveries[0]
      case Delivered(c) => ([f.(part := Some(c))], true)
      case Failed(p) =>
        var (states, got) := Download(f.(part := p), deliveries[1..]);
        ([f.(part := p)] + states, got)
  }

  function LastOf(f: Files, states: seq<Files>): Files {
    if states == [] then f else states[|states| - 1]
  }

  function Moved(f: Files): Files {
    f.(image := f.part, part := None)
  }

  function Checked(hash: Hash, f: Files, want: Digest): (Files, Exit)
    requires f.image.Some?
  {
    if hash(f.image.value) == want then (f.(marker := Some(Marker(want, |f.image.value|))), Downloaded)
    else (f.(image := None, corrupt := f.image), Mismatch)
  }

  /** The script, given the wanted digest it was told or could look up. */
  function RunOf(hash: Hash, f: Files, want: Digest, deliveries: seq<Delivery>): Run {
    if !IsSha256(want) then Run([f], NoDigest)
    else if Verified(f, want) then Run([f], Cached)
    else if f.image.Some? then
      var (g, exit) := Checked(hash, f, want);
      Run([f, g], exit)
    else
      var (states, got) := Download(f, deliveries);
      var last := LastOf(f, states);
      if !got then Run([f] + states, NoSource)
      else
        var (g, exit) := Checked(hash, Moved(last), want);
        Run([f] + states + [Moved(last), g], exit)
  }

  // ----- how a run ends, from what it finds and what the mirrors deliver -----

  /** The mirrors before the i-th failed, and that one delivered the content. */
  predicate FirstDelivered(deliveries: seq<Delivery>, i: int, c: Content) {
    0 <= i < |deliveries| && deliveries[i] == Delivered(c) && forall j :: 0 <= j < i ==> deliveries[j].Failed?
  }

  predicate AllFailed(deliveries: seq<Delivery>) {
    forall i :: 0 <= i < |deliveries| ==> deliveries[i].Failed?
  }

  /** An image of that content was checked: kept with a marker of its own, or moved aside. */
  predicate CheckedAs(hash: Hash, f: Files, c: Content, want: Digest, exit: Exit, g: Files) {
    if hash(c) == want then
      exit == Downloaded && g.image == Some(c) && g.marker == Some(Marker(want, |c|)) && g.corrupt == f.corrupt
    else
      exit == Mismatch && g.image == None && g.marker == f.marker && g.corrupt == Some(c)
  }

  /** 64 characters, each a digit or one of a to f. */
  predicate WellFormed(d: Digest) {
    |d| == 64 && forall i :: 0 <= i < 64 ==> d[i] in "0123456789abcdef"
  }

  ghost predicate Ends(hash: Hash, f: Files, want: Digest, deliveries: seq<Delivery>, exit: Exit, g: Files) {
    if !WellFormed(want) then exit == NoDigest && g == f
    else
      match f.image
      case Some(c) =>
        if f.marker == Some(Marker(want, |c|)) then exit == Cached && g == f
        else CheckedAs(hash, f, c, want, exit, g) && g.part == f.part
      case None =>
        && (AllFailed(deliveries) ==>
              exit == NoSource && g.image == None && g.marker == f.marker && g.corrupt == f.corrupt
              && g.part == if deliveries == [] then f.part else deliveries[|deliveries| - 1].part)
        && forall i, c :: FirstDelivered(deliveries, i, c) ==> CheckedAs(hash, f, c, want, exit, g) && g.part == None
  }

  lemma {:induction false} DownloadFinds(f: Files, deliveries: seq<Delivery>)
    ensures var (states, got) := Download(f, deliveries);
            var last := LastOf(f, states);
            && (got <==> !AllFailed(deliveries))
            && (AllFailed(deliveries) ==>
                  last == f.(part := if deliveries == [] then f.part else deliveries[|deliveries| - 1].part))
            && forall i, c :: FirstDelivered(deliveries, i, c) ==> last == f.(part := Some(c))
    decreases |deliveries|
  {
    if deliveries != [] && deliveries[0].Failed? {
      var rest, p := deliveries[1..], deliveries[0].part;
      DownloadFinds(f.(part := p), rest);
      forall i, c | FirstDelivered(deliveries, i, c) ensures i > 0 && FirstDelivered(rest, i - 1, c) {
        forall j | 0 <= j < i - 1 ensures rest[j].Failed? { assert deliveries[j + 1].Failed?; }
      }
      assert AllFailed(deliveries) <==> AllFailed(rest) by {
        forall j | 0 <= j < |rest| ensures rest[j] == deliveries[j + 1] {}
      }
    }
  }

  /** Every character of a well-formed digest is one of the sixteen. */
  lemma DigestForm(d: Digest)
    ensures IsSha256(d) <==> WellFormed(d)
  {
    forall c: char ensures c in "0123456789abcdef" <==> '0' <= c <= '9' || 'a' <= c <= 'f' { HexDigit(c); }
  }

  lemma HexDigit(c: char)
    ensures c in "0123456789abcdef" <==> '0' <= c <= '9' || 'a' <= c <= 'f'
  {
    var hex := "0123456789abcdef";
    if '0' <= c <= '9' { assert hex[c as int - '0' as int] == c; }
    if 'a' <= c <= 'f' { assert hex[c as int - 'a' as int + 10] == c; }
  }

  lemma RunEnds(hash: Hash, f: Files, want: Digest, deliveries: seq<Delivery>)
    ensures var r := RunOf(hash, f, want, deliveries);
            Ends(hash, f, want, deliveries, r.exit, LastOf(f, r.states))
  {
    DigestForm(want);
    DownloadFinds(f, deliveries);
  }

  class Host {
    var files: Files
    const hash: Hash

    constructor (files: Files, hash: Hash)
      ensures this.files == files && this.hash == hash
    {
      this.files := files;
      this.hash := hash;
    }

    /** One completed run of the script. */
    method Fetch(want: Digest, deliveries: seq<Delivery>) returns (exit: Exit)
      modifies this
      ensures var r := RunOf(hash, old(files), want, deliveries);
              exit == r.exit && files == LastOf(old(files), r.states)
      ensures Ends(hash, old(files), want, deliveries, exit, files)
    {
      RunEnds(hash, files, want, deliveries);
      if !IsSha256(want) { return NoDigest; }
      if Verified(files, want) { return Cached; }
      if files.image.None? {
        var fetched := false;
        var i := 0;
        while i < |deliveries| && !fetched
          invariant i <= |deliveries|
          invariant fetched ==> files.part.Some?
          invariant files.image.None?
          invariant var (states, got) := Download(old(files), deliveries);
                    if fetched then got && files == LastOf(old(files), states)
                    else
                      var (rest, more) := Download(files, deliveries[i..]);
                      got == more && LastOf(old(files), states) == LastOf(files, rest)
          decreases |deliveries| - i
        {
          match deliveries[i] {
            case Delivered(c) =>
              files := files.(part := Some(c));
              fetched := true;
            case Failed(p) =>
              files := files.(part := p);
          }
          i := i + 1;
        }
        if !fetched { return NoSource; }
        files := Moved(files);
      }
      if hash(files.image.value) != want {
        files := files.(image := None, corrupt := files.image);
        return Mismatch;
      }
      files := files.(marker := Some(Marker(want, |files.image.value|)));
      return Downloaded;
    }
  }

  // ----- completed runs -----

  /** A marker that fits the image's size names the image's digest. */
  predicate Trusted(hash: Hash, f: Files) {
    f.image.Some? && f.marker.Some? && f.marker.value.size == |f.image.value| ==>
      hash(f.image.value) == f.marker.value.digest
  }

  datatype Request = Request(want: Digest, deliveries: seq<Delivery>)

  function After(hash: Hash, f: Files, requests: seq<Request>): Files {
    if requests == [] then f
    else
      var last := requests[|requests| - 1];
      var before := After(hash, f, requests[..|requests| - 1]);
      LastOf(before, RunOf(hash, before, last.want, last.deliveries).states)
  }

  /** What one completed run guarantees, from any trusted state. */
  lemma OneRun(hash: Hash, f: Files, want: Digest, deliveries: seq<Delivery>)
    requires Trusted(hash, f)
    ensures var r := RunOf(hash, f, want, deliveries);
            var g := LastOf(f, r.states);
            && Trusted(hash, g)
            && (r.exit in {Cached, Downloaded} ==> g.image.Some? && hash(g.image.value) == want && Verified(g, want))
            && (r.exit == Mismatch ==> g.image.None? && g.corrupt.Some? && hash(g.corrupt.value) != want)
            && (r.exit == Cached ==> g == f)
            && (r.exit in {NoDigest, NoSource} ==> g == f.(part := g.part))
  {
  }

  /**
   Over any sequence of completed runs, with any digests wanted and any deliveries, a run that reports success leaves
   an image with the wanted digest, and one that finds a mismatch leaves no image.
   */
  lemma {:induction false} CompletedRuns(hash: Hash, f: Files, requests: seq<Request>)
    requires Trusted(hash, f)
    ensures Trusted(hash, After(hash, f, requests))
    ensures requests != [] ==>
              var last := requests[|requests| - 1];
              var before := After(hash, f, requests[..|requests| - 1]);
              var exit := RunOf(hash, before, last.want, last.deliveries).exit;
              var g := After(hash, f, requests);
              && (exit in {Cached, Downloaded} ==> g.image.Some? && hash(g.image.value) == last.want)
              && (exit == Mismatch ==> g.image.None?)
  {
    if requests != [] {
      var last := requests[|requests| - 1];
      CompletedRuns(hash, f, requests[..|requests| - 1]);
      OneRun(hash, After(hash, f, requests[..|requests| - 1]), last.want, last.deliveries);
    }
  }

  /** An image that a run just verified is found cached by the next one that wants it. */
  lemma DownloadedIsCached(hash: Hash, f: Files, want: Digest, deliveries: seq<Delivery>, later: seq<Delivery>)
    requires Trusted(hash, f) && RunOf(hash, f, want, deliveries).exit in {Cached, Downloaded}
    ensures var g := LastOf(f, RunOf(hash, f, want, deliveries).states);
            RunOf(hash, g, want, later) == Run([g], Cached)
  {
    OneRun(hash, f, want, deliveries);
  }

  // ----- interrupted runs -----

  /** A run stopped between two of its file operations can leave any of these states. */
  predicate StopsIn(hash: Hash, f: Files, want: Digest, deliveries: seq<Delivery>, g: Files) {
    g in RunOf(hash, f, want, deliveries).states
  }

  /** The marker outlived its image, and other contents have its size but not its digest. */
  ghost predicate StaleMarker(hash: Hash, f: Files) {
    f.image.None? && f.marker.Some? && exists c :: |c| == f.marker.value.size && hash(c) != f.marker.value.digest
  }

  ghost predicate AlwaysTrusted(hash: Hash, f: Files) {
    forall want, deliveries, g :: StopsIn(hash, f, want, deliveries, g) ==> Trusted(hash, g)
  }

  /**
   Whatever is wanted and delivered, and wherever the next run stops, the marker can still be trusted exactly when no
   stale marker is waiting for an image: the move of an unverified download onto the image's name is the one unsafe
   point.
   */
  lemma InterruptedRun(hash: Hash, f: Files)
    requires Trusted(hash, f)
    ensures AlwaysTrusted(hash, f) <==> !StaleMarker(hash, f)
  {
    if StaleMarker(hash, f) {
      var c :| |c| == f.marker.value.size && hash(c) != f.marker.value.digest;
      var want := seq(64, i => '0');
      var got := f.(part := Some(c));
      var r := RunOf(hash, f, want, [Delivered(c)]);
      assert r.states[2] == Moved(got);
      assert StopsIn(hash, f, want, [Delivered(c)], Moved(got));
      assert !Trusted(hash, Moved(got));
    } else {
      forall want, deliveries, g | StopsIn(hash, f, want, deliveries, g) ensures Trusted(hash, g) {
        var (states, _) := Download(f, deliveries);
        var r := RunOf(hash, f, want, deliveries);
        var i :| 0 <= i < |r.states| && r.states[i] == g;
        if 0 < i <= |states| && f.image.None? && r.states != [f] { assert g == states[i - 1]; }
      }
    }
  }

  /**
   A run that stops after that move can make a later run report an unverified image as cached: a verified image, a
   run that wants another digest and moves it aside, an interrupted run that is handed other contents of the same
   size, and a last run that wants the first digest again.
   */
  lemma InterruptionIsReported(hash: Hash, good: Content, bad: Content, f: Files)
    requires f == Files(None, None, None, None)
    requires |good| == |bad| && hash(good) != hash(bad) && IsSha256(hash(good)) && IsSha256(hash(bad))
    ensures var f1 := After(hash, f, [Request(hash(good), [Delivered(good)])]);
            var f2 := LastOf(f1, RunOf(hash, f1, hash(bad), []).states);
            exists g :: StopsIn(hash, f2, hash(good), [Delivered(bad)], g) &&
                        RunOf(hash, g, hash(good), []).exit == Cached && g.image == Some(bad)
  {
    var first := [Request(hash(good), [Delivered(good)])];
    assert first[..0] == [];
    assert After(hash, f, first[..0]) == f;
    assert first[0] == Request(hash(good), [Delivered(good)]);
    var f1 := After(hash, f, first);
    assert Download(f, [Delivered(good)]) == ([f.(part := Some(good))], true);
    var r := RunOf(hash, f, hash(good), [Delivered(good)]);
    assert r.states[|r.states| - 1] == Files(Some(good), None, Some(Marker(hash(good), |good|)), None);
    assert f1 == LastOf(f, r.states);
    assert f1 == Files(Some(good), None, Some(Marker(hash(good), |good|)), None);
    var f2 := LastOf(f1, RunOf(hash, f1, hash(bad), []).states);
    assert f2 == Files(None, None, f1.marker, Some(good));
    var g := Moved(f2.(part := Some(bad)));
    assert RunOf(hash, f2, hash(good), [Delivered(bad)]).states[2] == g;
    assert StopsIn(hash, f2, hash(good), [Delivered(bad)], g);
  }
}
