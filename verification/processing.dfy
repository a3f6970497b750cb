/** The request pipeline of the recording server: download every segment,
    check that they share one PCM format, concatenate them in URL order,
    encode the result as WAV and store it under an anonymised name.
    The network, the WAV codec, the hash and the storage backend are
    parameters of the model (fields of `Server`). */
module Processing {
  import opened Wrappers
  import opened Bytes
  import opened Hash
  import Decimal

  const StatusOK := 200
  const StatusBadRequest := 400
  const StatusInternalServerError := 500

  /** The part of a PCM format the merge compares. */
  datatype Format = Format(numChannels: int, sampleRate: int)

  /** A decoded recording: its format, its interleaved samples and the bit
      depth of the file it was decoded from. */
  datatype IntBuffer = IntBuffer(format: Format, data: seq<int>, sourceBitDepth: int)

  /** Download and decode of one URL; an error message on failure. */
  type Fetcher = string -> Result<IntBuffer, string>
  /** WAV encoding of a recording into an in-memory byte stream. */
  type Encoder = IntBuffer -> Result<seq<byte>, string>
  /** `Storage.Store(name, data)`: `None` for a nil error. */
  type Storer = (string, seq<byte>) -> Option<string>

  /** What the server holds for the whole process lifetime: the salt (at
      least 32 bytes, checked before serving starts), the hash, and the
      collaborators the pipeline calls. */
  datatype Server = Server(salt: Salt, sha3: Hasher, fetch: Fetcher, encode: Encoder, store: Storer)

  // ---------------------------------------------------------------------
  // Gathering the segments

  /** The result slots once every download task has finished. */
  function Slots(fetch: Fetcher, urls: seq<string>): (slots: seq<Result<IntBuffer, string>>)
    ensures |slots| == |urls|
    ensures forall i :: 0 <= i < |urls| ==> slots[i] == fetch(urls[i])
  {
    seq(|urls|, i requires 0 <= i < |urls| => fetch(urls[i]))
  }

  /** The download tasks completing in the order `schedule`: each task writes
      only its own slot, and the join waits for all of them. Whatever the
      order, slot i ends up holding the outcome of fetching `urls[i]`. */
  method RunFetchTasks(fetch: Fetcher, urls: seq<string>, schedule: seq<nat>)
    returns (slots: seq<Result<IntBuffer, string>>)
    requires forall k :: 0 <= k < |schedule| ==> schedule[k] < |urls|
    requires forall i :: 0 <= i < |urls| ==> i in schedule
    ensures |slots| == |urls|
    ensures forall i :: 0 <= i < |urls| ==> slots[i] == fetch(urls[i])
    ensures slots == Slots(fetch, urls)
  {
    var filled: seq<Option<Result<IntBuffer, string>>> := seq(|urls|, _ => None);
    var k := 0;
    while k < |schedule|
      invariant 0 <= k <= |schedule|
      invariant |filled| == |urls|
      invariant forall i :: 0 <= i < |urls| ==>
        filled[i] == if i in schedule[..k] then Some(fetch(urls[i])) else None
    {
      var i := schedule[k];
      assert schedule[..k + 1] == schedule[..k] + [i];
      filled := filled[i := Some(fetch(urls[i]))];
      k := k + 1;
    }
    assert schedule[..k] == schedule;
    slots := seq(|urls|, i requires 0 <= i < |urls| => filled[i].value);
  }

  /** The index of the first failed slot, if any. */
  function FirstError(slots: seq<Result<IntBuffer, string>>): (k: Option<nat>)
    ensures k.None? <==> forall i :: 0 <= i < |slots| ==> slots[i].Ok?
    ensures k.Some? ==> k.value < |slots| && slots[k.value].Err?
    ensures k.Some? ==> forall j :: 0 <= j < k.value ==> slots[j].Ok?
    decreases |slots|
  {
    if |slots| == 0 then None
    else if slots[0].Err? then Some(0)
    else
      match FirstError(slots[1..])
      case None => None
      case Some(k) => Some(k + 1)
  }

  /** `gatherWaveBuffers`: every URL is fetched; if any fetch failed the
      result is the error of the lowest-index failure, otherwise the decoded
      buffers, one per URL, in URL order. */
  function Gather(fetch: Fetcher, urls: seq<string>): (r: Result<seq<IntBuffer>, string>)
    ensures r.Ok? <==> forall i :: 0 <= i < |urls| ==> fetch(urls[i]).Ok?
    ensures r.Ok? ==> |r.value| == |urls|
    ensures r.Ok? ==> forall i :: 0 <= i < |urls| ==> fetch(urls[i]) == Ok(r.value[i])
    ensures r.Err? ==> exists k :: 0 <= k < |urls| && fetch(urls[k]) == Err(r.error)
                                   && forall j :: 0 <= j < k ==> fetch(urls[j]).Ok?
  {
    var slots := Slots(fetch, urls);
    match FirstError(slots)
    case Some(k) => Err(slots[k].error)
    case None => Ok(seq(|slots|, i requires 0 <= i < |slots| => slots[i].value))
  }

  // ---------------------------------------------------------------------
  // Merging the segments

  /** Which property of a segment disagrees with the first segment. */
  datatype MergeError = ChannelsDiffer | SampleRatesDiffer | BitDepthsDiffer

  predicate SameFormat(a: IntBuffer, b: IntBuffer) {
    && a.format.numChannels == b.format.numChannels
    && a.format.sampleRate == b.format.sampleRate
    && a.sourceBitDepth == b.sourceBitDepth
  }

  /** The checks of one segment against the first, in the source's order:
      channel count, then sample rate, then bit depth. */
  function FirstDifference(first: IntBuffer, seg: IntBuffer): (d: Option<MergeError>)
    ensures d.None? <==> SameFormat(first, seg)
    ensures d == Some(ChannelsDiffer) <==> first.format.numChannels != seg.format.numChannels
    ensures d == Some(SampleRatesDiffer) <==>
      first.format.numChannels == seg.format.numChannels && first.format.sampleRate != seg.format.sampleRate
    ensures d == Some(BitDepthsDiffer) <==>
      first.format == seg.format && first.sourceBitDepth != seg.sourceBitDepth
  {
    if seg.format.numChannels != first.format.numChannels then Some(ChannelsDiffer)
    else if seg.format.sampleRate != first.format.sampleRate then Some(SampleRatesDiffer)
    else if seg.sourceBitDepth != first.sourceBitDepth then Some(BitDepthsDiffer)
    else None
  }

  /** The first index at or after `from` whose segment disagrees with segment 0. */
  function FirstMismatchFrom(data: seq<IntBuffer>, from: nat): (k: Option<nat>)
    requires 0 < |data|
    ensures k.None? <==> forall j :: from <= j < |data| ==> SameFormat(data[0], data[j])
    ensures k.Some? ==> from <= k.value < |data| && !SameFormat(data[0], data[k.value])
    ensures k.Some? ==> forall j :: from <= j < k.value ==> SameFormat(data[0], data[j])
    decreases |data| - from
  {
    if from >= |data| then None
    else if !SameFormat(data[0], data[from]) then Some(from)
    else FirstMismatchFrom(data, from + 1)
  }

  /** All samples of `data`, segment after segment. */
  function Flatten(data: seq<IntBuffer>): seq<int>
    decreases |data|
  {
    if |data| == 0 then [] else Flatten(data[..|data| - 1]) + data[|data| - 1].data
  }

  lemma {:induction false} FlattenAppend(a: seq<IntBuffer>, b: seq<IntBuffer>)
    ensures Flatten(a + b) == Flatten(a) + Flatten(b)
    decreases |b|
  {
    if |b| > 0 {
      assert (a + b)[..|a + b| - 1] == a + b[..|b| - 1];
      FlattenAppend(a, b[..|b| - 1]);
    } else {
      assert a + b == a;
    }
  }

  /** Sample i of segment j sits in the flattened sequence right after all
      samples of the segments before j. */
  lemma {:induction false} FlattenIndex(data: seq<IntBuffer>, j: nat, i: nat)
    requires j < |data| && i < |data[j].data|
    ensures |Flatten(data[..j])| + i < |Flatten(data)|
    ensures Flatten(data)[|Flatten(data[..j])| + i] == data[j].data[i]
  {
    assert data == data[..j] + [data[j]] + data[j + 1..];
    FlattenAppend(data[..j] + [data[j]], data[j + 1..]);
    FlattenAppend(data[..j], [data[j]]);
    assert Flatten([data[j]]) == data[j].data by {
      assert [data[j]][..0] == [];
    }
  }

  /** `mergeWaveBuffers` as a function: the first segment's format with
      every segment's samples in input order, or the property in which the
      first disagreeing segment differs from segment 0. The source indexes
      `data[0]` without a check, so an empty input is not allowed. */
  function Merge(data: seq<IntBuffer>): (r: Result<IntBuffer, MergeError>)
    requires 0 < |data|
    ensures r.Ok? <==> forall i :: 1 <= i < |data| ==> SameFormat(data[0], data[i])
    ensures r.Ok? ==> r.value == data[0].(data := Flatten(data))
    ensures r.Err? ==> exists k :: 1 <= k < |data| && FirstDifference(data[0], data[k]) == Some(r.error)
                                   && forall j :: 1 <= j < k ==> SameFormat(data[0], data[j])
    ensures |data| == 1 ==> r == Ok(data[0])
  {
    assert |data| == 1 ==> Flatten(data) == data[0].data by {
      if |data| == 1 {
        assert data[..0] == [];
      }
    }
    match FirstMismatchFrom(data, 1)
    case Some(k) => Err(FirstDifference(data[0], data[k]).value)
    case None => Ok(data[0].(data := Flatten(data)))
  }

  /** The source's merge loop, which grows segment 0's samples in place.
      Besides the merge result it returns segment 0 as the loop leaves it:
      on a mismatch at index k, segments 1..k-1 have already been appended. */
  method MergeWaveBuffers(data: seq<IntBuffer>) returns (r: Result<IntBuffer, MergeError>, first: IntBuffer)
    requires 0 < |data|
    ensures r == Merge(data)
    ensures r.Ok? ==> first == r.value
    ensures r.Err? ==> FirstMismatchFrom(data, 1).Some?
    ensures r.Err? ==> first == data[0].(data := Flatten(data[..FirstMismatchFrom(data, 1).value]))
  {
    first := data[0];
    assert data[..1] == [data[0]] && [data[0]][..0] == [];
    var i := 1;
    while i < |data|
      invariant 1 <= i <= |data|
      invariant forall j :: 1 <= j < i ==> SameFormat(data[0], data[j])
      invariant first == data[0].(data := Flatten(data[..i]))
    {
      if data[i].format.numChannels != first.format.numChannels {
        return Err(ChannelsDiffer), first;
      }
      if data[i].format.sampleRate != first.format.sampleRate {
        return Err(SampleRatesDiffer), first;
      }
      if data[i].sourceBitDepth != first.sourceBitDepth {
        return Err(BitDepthsDiffer), first;
      }
      assert data[..i + 1][..i] == data[..i];
      first := first.(data := first.data + data[i].data);
      i := i + 1;
    }
    assert data[..i] == data;
    r := Ok(first);
  }

  // ---------------------------------------------------------------------
  // Naming and storing

  /** The stored file name: identifier, underscore, decimal timestamp, `.wav`. */
  function StoredName(id: string, now: int): (name: string)
    ensures |name| > |id| + 5
    ensures name[..|id|] == id
    ensures name[|id|] == '_'
    ensures Decimal.ParseInt(name[|id| + 1..|name| - 4]) == Some(now)
    ensures name[|name| - 4..] == ".wav"
    ensures '/' !in id ==> '/' !in name
  {
    var stamp := Decimal.FormatInt(now);
    var name := id + "_" + stamp + ".wav";
    assert name[|id| + 1..|name| - 4] == stamp;
    Decimal.FormatIntRoundTrip(now);
    Decimal.FormatIntHasNoSlash(now);
    name
  }

  /** Two stored names (with identifiers of one length) are equal exactly
      when both the identifiers and the timestamps are. */
  lemma StoredNameInjective(id1: string, now1: int, id2: string, now2: int)
    requires |id1| == |id2|
    ensures StoredName(id1, now1) == StoredName(id2, now2) <==> id1 == id2 && now1 == now2
  {
    var n1, n2 := StoredName(id1, now1), StoredName(id2, now2);
    var t1, t2 := Decimal.FormatInt(now1), Decimal.FormatInt(now2);
    if n1 == n2 {
      assert n1[..|id1|] == id1 && n2[..|id2|] == id2;
      assert n1[|id1| + 1..|n1| - 4] == t1;
      assert n2[|id2| + 1..|n2| - 4] == t2;
      Decimal.FormatIntInjective(now1, now2);
    }
  }

  /** `saveToStorage`: the name is built from the caller's identifier and the
      clock, and the store is asked once, under that name, for the bytes. */
  datatype Saved = Saved(name: string, error: Option<string>)

  function SaveToStorage(server: Server, wav: seq<byte>, phone: seq<byte>, now: int): (s: Saved)
    ensures |s.name| > 93
    ensures s.name[..88] == GenerateID(server.sha3, server.salt, phone)
    ensures s.name[88] == '_'
    ensures Decimal.ParseInt(s.name[89..|s.name| - 4]) == Some(now)
    ensures s.name[|s.name| - 4..] == ".wav"
    ensures '/' !in s.name
    ensures s.error == server.store(s.name, wav)
  {
    var name := StoredName(GenerateID(server.sha3, server.salt, phone), now);
    Saved(name, server.store(name, wav))
  }

  // ---------------------------------------------------------------------
  // The whole request

  /** One observable step of the pipeline, in the order it happens. */
  datatype Step =
    | FetchStep(url: string)
    | MergeStep
    | EncodeStep(recording: IntBuffer)
    | StoreStep(name: string, wav: seq<byte>)

  /** The status code answered and the steps taken to get there. */
  datatype Response = Response(status: int, steps: seq<Step>)

  function FetchSteps(urls: seq<string>): (steps: seq<Step>)
    ensures |steps| == |urls|
    ensures forall i :: 0 <= i < |urls| ==> steps[i] == FetchStep(urls[i])
  {
    seq(|urls|, i requires 0 <= i < |urls| => FetchStep(urls[i]))
  }

  /** `processRequest`: reject an empty URL list; otherwise gather, merge,
      encode and store, answering 500 at the first stage that fails and 200
      when all of them succeed. */
  function ProcessRequest(server: Server, phone: seq<byte>, urls: seq<string>, now: int): (resp: Response)
    ensures resp.status in {StatusOK, StatusBadRequest, StatusInternalServerError}
    ensures resp.status == StatusBadRequest <==> |urls| == 0
    ensures |urls| == 0 ==> resp.steps == []
    ensures |urls| > 0 ==> |resp.steps| >= |urls| && resp.steps[..|urls|] == FetchSteps(urls)
  {
    if |urls| < 1 then Response(StatusBadRequest, [])
    else
      var fetched := FetchSteps(urls);
      match Gather(server.fetch, urls)
      case Err(_) => Response(StatusInternalServerError, fetched)
      case Ok(data) =>
        match Merge(data)
        case Err(_) => Response(StatusInternalServerError, fetched + [MergeStep])
        case Ok(recording) =>
          match server.encode(recording)
          case Err(_) => Response(StatusInternalServerError, fetched + [MergeStep, EncodeStep(recording)])
          case Ok(wav) =>
            var saved := SaveToStorage(server, wav, phone, now);
            var steps := fetched + [MergeStep, EncodeStep(recording), StoreStep(saved.name, wav)];
            if saved.error.Some? then Response(StatusInternalServerError, steps)
            else Response(StatusOK, steps)
  }

  // ---------------------------------------------------------------------
  // The pipeline, stated in terms of the collaborators alone

  predicate AllFetched(fetch: Fetcher, urls: seq<string>) {
    forall i :: 0 <= i < |urls| ==> fetch(urls[i]).Ok?
  }

  /** The decoded segments, in URL order. */
  function Segments(fetch: Fetcher, urls: seq<string>): (segs: seq<IntBuffer>)
    requires AllFetched(fetch, urls)
    ensures |segs| == |urls|
  {
    seq(|urls|, i requires 0 <= i < |urls| => fetch(urls[i]).value)
  }

  predicate Compatible(segs: seq<IntBuffer>) {
    forall i :: 1 <= i < |segs| ==> SameFormat(segs[0], segs[i])
  }

  /** The recording the segments make together: segment 0's format and bit
      depth, everybody's samples in order. */
  function Recording(segs: seq<IntBuffer>): IntBuffer
    requires 0 < |segs|
  {
    segs[0].(data := Flatten(segs))
  }

  lemma GatherIsSegments(fetch: Fetcher, urls: seq<string>)
    requires AllFetched(fetch, urls)
    ensures Gather(fetch, urls) == Ok(Segments(fetch, urls))
  {
    var r := Gather(fetch, urls);
    assert r.value == Segments(fetch, urls);
  }

  /** A failed download stops the request after the downloads: 500, and
      nothing is merged, encoded or stored. */
  lemma FetchFailureStopsRequest(server: Server, phone: seq<byte>, urls: seq<string>, now: int, k: nat)
    requires k < |urls| && server.fetch(urls[k]).Err?
    ensures ProcessRequest(server, phone, urls, now) == Response(StatusInternalServerError, FetchSteps(urls))
  {
  }

  /** Segments that disagree in format stop the request at the merge. */
  lemma MismatchStopsRequest(server: Server, phone: seq<byte>, urls: seq<string>, now: int)
    requires 0 < |urls| && AllFetched(server.fetch, urls)
    requires !Compatible(Segments(server.fetch, urls))
    ensures ProcessRequest(server, phone, urls, now)
         == Response(StatusInternalServerError, FetchSteps(urls) + [MergeStep])
  {
    GatherIsSegments(server.fetch, urls);
  }

  /** A failed encoding stops the request before storage; the recording the
      encoder was given is the URL-ordered concatenation. */
  lemma EncodeFailureStopsRequest(server: Server, phone: seq<byte>, urls: seq<string>, now: int)
    requires 0 < |urls| && AllFetched(server.fetch, urls)
    requires Compatible(Segments(server.fetch, urls))
    requires server.encode(Recording(Segments(server.fetch, urls))).Err?
    ensures ProcessRequest(server, phone, urls, now)
         == Response(StatusInternalServerError,
                     FetchSteps(urls) + [MergeStep, EncodeStep(Recording(Segments(server.fetch, urls)))])
  {
    GatherIsSegments(server.fetch, urls);
  }

  /** Once the recording is encoded, the store is called exactly once, last,
      under `<id>_<timestamp>.wav`; the answer is 200 exactly when it succeeds. */
  lemma StoreCalledOnce(server: Server, phone: seq<byte>, urls: seq<string>, now: int)
    requires 0 < |urls| && AllFetched(server.fetch, urls)
    requires Compatible(Segments(server.fetch, urls))
    requires server.encode(Recording(Segments(server.fetch, urls))).Ok?
    ensures var recording := Recording(Segments(server.fetch, urls));
            var wav := server.encode(recording).value;
            var name := StoredName(GenerateID(server.sha3, server.salt, phone), now);
            var resp := ProcessRequest(server, phone, urls, now);
            && resp.steps == FetchSteps(urls) + [MergeStep, EncodeStep(recording), StoreStep(name, wav)]
            && (resp.status == StatusOK <==> server.store(name, wav).None?)
            && (resp.status != StatusOK ==> resp.status == StatusInternalServerError)
  {
    GatherIsSegments(server.fetch, urls);
  }

  /** 200 exactly when every stage succeeds. */
  lemma OkIffEveryStageSucceeds(server: Server, phone: seq<byte>, urls: seq<string>, now: int)
    ensures ProcessRequest(server, phone, urls, now).status == StatusOK <==>
      && 0 < |urls|
      && AllFetched(server.fetch, urls)
      && Compatible(Segments(server.fetch, urls))
      && server.encode(Recording(Segments(server.fetch, urls))).Ok?
      && server.store(StoredName(GenerateID(server.sha3, server.salt, phone), now),
                      server.encode(Recording(Segments(server.fetch, urls))).value).None?
  {
    if 0 < |urls| && AllFetched(server.fetch, urls) {
      GatherIsSegments(server.fetch, urls);
    }
  }

  /** Until the recording is encoded, no store step is taken. */
  lemma NoStoreBeforeEncode(server: Server, phone: seq<byte>, urls: seq<string>, now: int)
    requires !(0 < |urls| && AllFetched(server.fetch, urls) && Compatible(Segments(server.fetch, urls))
               && server.encode(Recording(Segments(server.fetch, urls))).Ok?)
    ensures var steps := ProcessRequest(server, phone, urls, now).steps;
            forall k :: 0 <= k < |steps| ==> !steps[k].StoreStep?
  {
    if |urls| == 0 {
    } else if !AllFetched(server.fetch, urls) {
      var j :| 0 <= j < |urls| && server.fetch(urls[j]).Err?;
      FetchFailureStopsRequest(server, phone, urls, now, j);
    } else if !Compatible(Segments(server.fetch, urls)) {
      MismatchStopsRequest(server, phone, urls, now);
    } else {
      EncodeFailureStopsRequest(server, phone, urls, now);
    }
  }

  /** Once the recording is encoded, the one store step sits last, after the
      merge and encode steps. */
  lemma StoreStepIsLast(server: Server, phone: seq<byte>, urls: seq<string>, now: int)
    requires 0 < |urls| && AllFetched(server.fetch, urls)
    requires Compatible(Segments(server.fetch, urls))
    requires server.encode(Recording(Segments(server.fetch, urls))).Ok?
    ensures var steps := ProcessRequest(server, phone, urls, now).steps;
            forall k :: 0 <= k < |steps| && steps[k].StoreStep? ==>
              && k == |steps| - 1 && k >= 2
              && steps[k - 2] == MergeStep && steps[k - 1].EncodeStep?
  {
    StoreCalledOnce(server, phone, urls, now);
  }

  /** A store step is taken only after a merge and an encode step, and at most once. */
  lemma StoreOnlyAfterEncode(server: Server, phone: seq<byte>, urls: seq<string>, now: int)
    ensures var steps := ProcessRequest(server, phone, urls, now).steps;
            forall k :: 0 <= k < |steps| && steps[k].StoreStep? ==>
              && k == |steps| - 1 && k >= 2
              && steps[k - 2] == MergeStep && steps[k - 1].EncodeStep?
  {
    var steps := ProcessRequest(server, phone, urls, now).steps;
    forall k | 0 <= k < |steps| && steps[k].StoreStep?
      ensures k == |steps| - 1 && k >= 2 && steps[k - 2] == MergeStep && steps[k - 1].EncodeStep?
    {
      if 0 < |urls| && AllFetched(server.fetch, urls) && Compatible(Segments(server.fetch, urls))
         && server.encode(Recording(Segments(server.fetch, urls))).Ok? {
        StoreStepIsLast(server, phone, urls, now);
      } else {
        NoStoreBeforeEncode(server, phone, urls, now);
        assert false;
      }
    }
  }

  /** Two mono 8000 Hz 16-bit segments of 4000 and 6000 samples give one
      stored recording of 10000 samples in the same format. */
  lemma TwoSegmentScenario(server: Server, phone: seq<byte>, now: int, a: IntBuffer, b: IntBuffer)
    requires a.format == Format(1, 8000) && a.sourceBitDepth == 16 && |a.data| == 4000
    requires b.format == Format(1, 8000) && b.sourceBitDepth == 16 && |b.data| == 6000
    requires server.fetch("https://host/a.wav") == Ok(a)
    requires server.fetch("https://host/b.wav") == Ok(b)
    requires forall recording :: server.encode(recording).Ok?
    requires forall name, wav :: server.store(name, wav).None?
    ensures var resp := ProcessRequest(server, phone, ["https://host/a.wav", "https://host/b.wav"], now);
            && resp.status == StatusOK
            && |resp.steps| == 5
            && resp.steps[3] == EncodeStep(IntBuffer(Format(1, 8000), a.data + b.data, 16))
            && |resp.steps[3].recording.data| == 10000
            && resp.steps[4].StoreStep?
  {
    var urls := ["https://host/a.wav", "https://host/b.wav"];
    assert AllFetched(server.fetch, urls);
    var segs := Segments(server.fetch, urls);
    assert segs == [a, b];
    assert Flatten(segs) == a.data + b.data by {
      assert segs[..1] == [a] && [a][..0] == [];
      assert Flatten([a]) == Flatten([]) + a.data;
      assert Flatten(segs) == Flatten([a]) + b.data;
    }
    StoreCalledOnce(server, phone, urls, now);
  }
}
