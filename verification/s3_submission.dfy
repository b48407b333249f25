/** `S3ImageSubmission` and `S3ImageSubmissionBatchMessage`: the parser that
    turns one storage "object created" batch notification into one submission
    per non-empty object, in record order, and the cheap test that recognises
    such a notification. */
module S3Submission {
  import opened Wrappers
  import opened PyValue
  import opened PercentCoding

  /** The three fields the parser reads from one notification record: the
      bucket name, the object key as sent (form-urlencoded) and the object size. */
  datatype S3Record = S3Record(bucket: Json, rawKey: string, size: Json)

  /** One uploaded object. The bucket name is carried as the value found in the
      notification, which is a string in every notification storage sends. */
  datatype S3ImageSubmission = S3ImageSubmission(contentId: string, bucket: Json, key: string)

  datatype S3ImageSubmissionBatchMessage = S3ImageSubmissionBatchMessage(imageSubmissions: seq<S3ImageSubmission>)

  /** The content id naming convention, `idOf(decodedKey, imagePrefix)`. Its
      definition lives outside this model and nothing is assumed about it. */
  type ContentIdOf = (string, string) -> string

  /** A folder marker or an empty file: the record's size compares equal to 0. */
  predicate IsEmptyObject(r: S3Record)
  {
    EqualsZero(r.size)
  }

  /** The submission emitted for a record that is kept. */
  function ToSubmission(r: S3Record, imagePrefix: string, idOf: ContentIdOf): S3ImageSubmission
  {
    var key := UnquotePlus(r.rawKey);
    S3ImageSubmission(idOf(key, imagePrefix), r.bucket, key)
  }

  // ---------------------------------------------------------------------------
  // Reading the fields of one record
  // ---------------------------------------------------------------------------

  /** The argument of `unquote_plus`: only a string has the `replace` method it calls. */
  function AsUnquotable(v: Json): (r: Result<string, PyError>)
  {
    if v.JStr? then Success(v.s) else Failure(AttributeError)
  }

  /** A record with everything the parser reads: `s3.bucket.name`,
      `s3.object.key` holding a string, and `s3.object.size`. */
  predicate WellFormedRecord(e: Json)
  {
    && e.JObject? && "s3" in e.fields
    && var s3 := e.fields["s3"];
    && s3.JObject? && "bucket" in s3.fields && "object" in s3.fields
    && s3.fields["bucket"].JObject? && "name" in s3.fields["bucket"].fields
    && var obj := s3.fields["object"];
    && obj.JObject? && "key" in obj.fields && obj.fields["key"].JStr? && "size" in obj.fields
  }

  /** The record a well-formed notification entry stands for. */
  function RecordOf(e: Json): S3Record
    requires WellFormedRecord(e)
  {
    var s3 := e.fields["s3"];
    var obj := s3.fields["object"];
    S3Record(s3.fields["bucket"].fields["name"], obj.fields["key"].s, obj.fields["size"])
  }

  /** The lookups of one loop iteration, in the order the source makes them:
      the bucket name, then the key and its decoding, then the size. */
  function ExtractRecord(e: Json): (r: Result<S3Record, PyError>)
    ensures r.Success? <==> WellFormedRecord(e)
    ensures r.Success? ==> r.value == RecordOf(e)
    ensures !e.JObject? ==> r == Failure(TypeError)
    ensures e.JObject? && "s3" !in e.fields ==> r == Failure(KeyError(JStr("s3")))
  {
    var s3 :- Subscript(e, "s3");
    var bucket :- Subscript(s3, "bucket");
    var name :- Subscript(bucket, "name");
    var obj :- Subscript(s3, "object");
    var keyValue :- Subscript(obj, "key");
    var rawKey :- AsUnquotable(keyValue);
    var size :- Subscript(obj, "size");
    Success(S3Record(name, rawKey, size))
  }

  /** What `for s3_record in records` hands to the loop body, or the exception
      the first iteration raises. A list yields its elements. An empty dict or
      string yields nothing. A non-empty dict or string yields strings, and the
      body's first step, `s3_record["s3"]`, raises `TypeError` on a string, so
      the outcome is that `TypeError`. Any other value is not iterable. */
  function RecordElements(v: Json): (r: Result<seq<Json>, PyError>)
    ensures v.JArray? ==> r == Success(v.items)
    ensures r.Success? ==> v.JArray? || v.JObject? || v.JStr?
  {
    match v
    case JArray(s) => Success(s)
    case JObject(m) => if |m| == 0 then Success([]) else Failure(TypeError)
    case JStr(s) => if |s| == 0 then Success([]) else Failure(TypeError)
    case _ => Failure(TypeError)
  }

  /** Reads every record in order and stops at the first one that raises. */
  function ExtractAll(elems: seq<Json>): (r: Result<seq<S3Record>, PyError>)
    ensures r.Success? ==> |r.value| == |elems|
    decreases |elems|
  {
    if |elems| == 0 then Success([])
    else
      var front :- ExtractAll(elems[..|elems| - 1]);
      var last :- ExtractRecord(elems[|elems| - 1]);
      Success(front + [last])
  }

  /** Reading the records succeeds exactly when every record is well formed,
      and then yields each record's fields in order. */
  lemma {:induction false} ExtractAllSpec(elems: seq<Json>)
    ensures ExtractAll(elems).Success? <==> forall i :: 0 <= i < |elems| ==> WellFormedRecord(elems[i])
    ensures ExtractAll(elems).Success? ==>
      forall i :: 0 <= i < |elems| ==> ExtractAll(elems).value[i] == RecordOf(elems[i])
    decreases |elems|
  {
    if |elems| > 0 {
      var n := |elems| - 1;
      var front := elems[..n];
      ExtractAllSpec(front);
      assert forall i :: 0 <= i < n ==> front[i] == elems[i];
      if ExtractAll(front).Success? && ExtractRecord(elems[n]).Success? {
        assert ExtractAll(elems) == Success(ExtractAll(front).value + [ExtractRecord(elems[n]).value]);
      }
    }
  }

  /** Position `i` holds the first record that is not well formed. */
  predicate FirstMalformed(elems: seq<Json>, i: int)
  {
    && 0 <= i < |elems|
    && !WellFormedRecord(elems[i])
    && forall k :: 0 <= k < i ==> WellFormedRecord(elems[k])
  }

  /** When reading fails, the exception is the one raised by the first
      malformed record. */
  lemma {:induction false} ExtractAllFirstError(elems: seq<Json>)
    requires ExtractAll(elems).Failure?
    ensures exists i :: FirstMalformed(elems, i) && ExtractAll(elems).error == ExtractRecord(elems[i]).error
    decreases |elems|
  {
    var n := |elems| - 1;
    var front := elems[..n];
    assert forall i :: 0 <= i < n ==> front[i] == elems[i];
    if ExtractAll(front).Failure? {
      ExtractAllFirstError(front);
      var i :| FirstMalformed(front, i) && ExtractAll(front).error == ExtractRecord(front[i]).error;
      assert FirstMalformed(elems, i);
    } else {
      ExtractAllSpec(front);
      assert ExtractAll(elems) == Failure(ExtractRecord(elems[n]).error);
      assert FirstMalformed(elems, n);
    }
  }

  // ---------------------------------------------------------------------------
  // Filtering and mapping the records
  // ---------------------------------------------------------------------------

  /** The submissions for `recs`: empty objects are skipped, every other record
      becomes one submission, appended in record order. */
  function Submissions(recs: seq<S3Record>, imagePrefix: string, idOf: ContentIdOf): (r: seq<S3ImageSubmission>)
    ensures |r| <= |recs|
    decreases |recs|
  {
    if |recs| == 0 then []
    else
      var front := Submissions(recs[..|recs| - 1], imagePrefix, idOf);
      var last := recs[|recs| - 1];
      if IsEmptyObject(last) then front else front + [ToSubmission(last, imagePrefix, idOf)]
  }

  /** The number of records skipped as empty objects (the records the source logs). */
  function CountEmpty(recs: seq<S3Record>): (n: nat)
    ensures n <= |recs|
    decreases |recs|
  {
    if |recs| == 0 then 0
    else CountEmpty(recs[..|recs| - 1]) + (if IsEmptyObject(recs[|recs| - 1]) then 1 else 0)
  }

  /** The positions of the records that are kept, in increasing order. */
  function SurvivorIndices(recs: seq<S3Record>): (ix: seq<nat>)
    ensures forall j :: 0 <= j < |ix| ==> ix[j] < |recs| && !IsEmptyObject(recs[ix[j]])
    ensures forall j, k :: 0 <= j < k < |ix| ==> ix[j] < ix[k]
    ensures forall i :: 0 <= i < |recs| && !IsEmptyObject(recs[i]) ==> i in ix
    decreases |recs|
  {
    if |recs| == 0 then []
    else
      var n := |recs| - 1;
      var front := SurvivorIndices(recs[..n]);
      assert forall i :: 0 <= i < n ==> recs[..n][i] == recs[i];
      if IsEmptyObject(recs[n]) then front else front + [n]
  }

  /** The submissions are exactly the kept records, mapped one to one and in
      their original relative order: the j-th submission comes from the j-th
      non-empty record. */
  lemma {:induction false} SubmissionsSelectSurvivors(recs: seq<S3Record>, imagePrefix: string, idOf: ContentIdOf)
    ensures |Submissions(recs, imagePrefix, idOf)| == |SurvivorIndices(recs)|
    ensures forall j :: 0 <= j < |SurvivorIndices(recs)| ==>
      Submissions(recs, imagePrefix, idOf)[j] == ToSubmission(recs[SurvivorIndices(recs)[j]], imagePrefix, idOf)
    decreases |recs|
  {
    if |recs| > 0 {
      var n := |recs| - 1;
      var front := recs[..n];
      SubmissionsSelectSurvivors(front, imagePrefix, idOf);
      var subs, ix := Submissions(front, imagePrefix, idOf), SurvivorIndices(front);
      assert forall j :: 0 <= j < |ix| ==> front[ix[j]] == recs[ix[j]];
      if IsEmptyObject(recs[n]) {
        assert Submissions(recs, imagePrefix, idOf) == subs;
        assert SurvivorIndices(recs) == ix;
      } else {
        assert Submissions(recs, imagePrefix, idOf) == subs + [ToSubmission(recs[n], imagePrefix, idOf)];
        assert SurvivorIndices(recs) == ix + [n];
      }
    }
  }

  /** Every record is either emitted or counted as skipped. */
  lemma {:induction false} SubmissionsPlusSkipped(recs: seq<S3Record>, imagePrefix: string, idOf: ContentIdOf)
    ensures |Submissions(recs, imagePrefix, idOf)| + CountEmpty(recs) == |recs|
    decreases |recs|
  {
    if |recs| > 0 {
      SubmissionsPlusSkipped(recs[..|recs| - 1], imagePrefix, idOf);
    }
  }

  /** Some record is skipped exactly when there is an empty object among them. */
  lemma {:induction false} CountEmptyPositive(recs: seq<S3Record>)
    ensures CountEmpty(recs) > 0 <==> exists i :: 0 <= i < |recs| && IsEmptyObject(recs[i])
    decreases |recs|
  {
    if |recs| > 0 {
      var n := |recs| - 1;
      CountEmptyPositive(recs[..n]);
      assert forall i :: 0 <= i < n ==> recs[..n][i] == recs[i];
      if CountEmpty(recs[..n]) > 0 {
        var i :| 0 <= i < n && IsEmptyObject(recs[..n][i]);
        assert IsEmptyObject(recs[i]);
      }
    }
  }

  /** The batch is strictly shorter than the notification exactly when the
      notification holds an empty object. */
  lemma {:induction false} FewerIffSomeEmpty(recs: seq<S3Record>, imagePrefix: string, idOf: ContentIdOf)
    ensures |Submissions(recs, imagePrefix, idOf)| < |recs| <==>
      exists i :: 0 <= i < |recs| && IsEmptyObject(recs[i])
  {
    SubmissionsPlusSkipped(recs, imagePrefix, idOf);
    CountEmptyPositive(recs);
  }

  /** The content id convention is consulted only for kept records: two
      conventions that agree on the decoded keys of the non-empty records give
      the same submissions, whatever they do on the keys of skipped ones. */
  lemma {:induction false} ContentIdOnlyForKept(recs: seq<S3Record>, imagePrefix: string, idOf: ContentIdOf, idOf': ContentIdOf)
    requires forall i :: 0 <= i < |recs| && !IsEmptyObject(recs[i]) ==>
      idOf(UnquotePlus(recs[i].rawKey), imagePrefix) == idOf'(UnquotePlus(recs[i].rawKey), imagePrefix)
    ensures Submissions(recs, imagePrefix, idOf) == Submissions(recs, imagePrefix, idOf')
    decreases |recs|
  {
    if |recs| > 0 {
      var n := |recs| - 1;
      assert forall i :: 0 <= i < n ==> recs[..n][i] == recs[i];
      ContentIdOnlyForKept(recs[..n], imagePrefix, idOf, idOf');
    }
  }

  // ---------------------------------------------------------------------------
  // The whole notification
  // ---------------------------------------------------------------------------

  const RecordsKey: string := "Records"

  /** `S3ImageSubmissionBatchMessage.from_sqs_message(d, image_prefix)`. */
  function FromSqsMessage(d: map<string, Json>, imagePrefix: string, idOf: ContentIdOf)
    : (r: Result<S3ImageSubmissionBatchMessage, PyError>)
    ensures RecordsKey !in d ==> r == Failure(KeyError(JStr(RecordsKey)))
    ensures r.Success? ==> RecordsKey in d && RecordElements(d[RecordsKey]).Success?
    ensures r.Success? ==> |r.value.imageSubmissions| <= |RecordElements(d[RecordsKey]).value|
  {
    if RecordsKey !in d then Failure(KeyError(JStr(RecordsKey)))
    else
      var elems :- RecordElements(d[RecordsKey]);
      var recs :- ExtractAll(elems);
      Success(S3ImageSubmissionBatchMessage(Submissions(recs, imagePrefix, idOf)))
  }

  /** A notification whose `Records` is a list of well-formed records parses,
      and its j-th submission is built from the j-th record of non-zero size:
      the bucket name copied, the key decoded, the content id derived from the
      decoded key. */
  lemma FromSqsMessageWellFormed(d: map<string, Json>, imagePrefix: string, idOf: ContentIdOf)
    requires RecordsKey in d && d[RecordsKey].JArray?
    requires forall i :: 0 <= i < |d[RecordsKey].items| ==> WellFormedRecord(d[RecordsKey].items[i])
    ensures var elems := d[RecordsKey].items;
      var recs := seq(|elems|, i requires 0 <= i < |elems| => RecordOf(elems[i]));
      var ix := SurvivorIndices(recs);
      && FromSqsMessage(d, imagePrefix, idOf).Success?
      && |FromSqsMessage(d, imagePrefix, idOf).value.imageSubmissions| == |ix|
      && forall j :: 0 <= j < |ix| ==>
          var sub := FromSqsMessage(d, imagePrefix, idOf).value.imageSubmissions[j];
          && sub.bucket == recs[ix[j]].bucket
          && sub.key == UnquotePlus(recs[ix[j]].rawKey)
          && sub.contentId == idOf(sub.key, imagePrefix)
  {
    var elems := d[RecordsKey].items;
    var recs := seq(|elems|, i requires 0 <= i < |elems| => RecordOf(elems[i]));
    ExtractAllSpec(elems);
    assert ExtractAll(elems).value == recs;
    SubmissionsSelectSurvivors(recs, imagePrefix, idOf);
  }

  /** The source's handling of a notification: look up `Records`, then run
      `ParseRecords` over its elements. It computes the same outcome as
      `FromSqsMessage`, and on success every record is either emitted or
      skipped. */
  method ParseBatch(d: map<string, Json>, imagePrefix: string, idOf: ContentIdOf)
    returns (r: Result<S3ImageSubmissionBatchMessage, PyError>, skipped: nat)
    ensures r == FromSqsMessage(d, imagePrefix, idOf)
    ensures r.Success? ==> |r.value.imageSubmissions| + skipped == |RecordElements(d[RecordsKey]).value|
  {
    skipped := 0;
    if RecordsKey !in d {
      return Failure(KeyError(JStr(RecordsKey))), skipped;
    }
    var elemsOrError := RecordElements(d[RecordsKey]);
    if elemsOrError.Failure? {
      return Failure(elemsOrError.error), skipped;
    }
    var subs;
    subs, skipped := ParseRecords(elemsOrError.value, imagePrefix, idOf);
    if subs.Failure? {
      return Failure(subs.error), skipped;
    }
    r := Success(S3ImageSubmissionBatchMessage(subs.value));
  }

  /** The source's loop, record by record: read the fields, skip an empty
      object (counting it where the source logs it), otherwise append its
      submission. The first record that fails to read ends the loop with its
      exception; otherwise the submissions are those of the records read, and
      submissions plus skipped records account for every element. */
  method ParseRecords(elems: seq<Json>, imagePrefix: string, idOf: ContentIdOf)
    returns (r: Result<seq<S3ImageSubmission>, PyError>, skipped: nat)
    ensures ExtractAll(elems).Failure? ==> r == Failure(ExtractAll(elems).error)
    ensures ExtractAll(elems).Success? ==>
      r == Success(Submissions(ExtractAll(elems).value, imagePrefix, idOf))
    ensures r.Success? ==> |r.value| + skipped == |elems|
  {
    skipped := 0;
    var result: seq<S3ImageSubmission> := [];
    ghost var recs: seq<S3Record> := [];
    var i := 0;
    while i < |elems|
      invariant 0 <= i <= |elems|
      invariant ExtractAll(elems[..i]) == Success(recs)
      invariant result == Submissions(recs, imagePrefix, idOf)
      invariant skipped == CountEmpty(recs)
    {
      var rec := ExtractRecord(elems[i]);
      ReadStep(elems, i, recs);
      if rec.Failure? {
        return Failure(rec.error), skipped;
      }
      result, skipped := Emit(recs, result, skipped, rec.value, imagePrefix, idOf);
      recs := recs + [rec.value];
      i := i + 1;
    }
    assert elems[..i] == elems;
    SubmissionsPlusSkipped(recs, imagePrefix, idOf);
    r := Success(result);
  }

  /** The loop body's decision for one record read: an empty object is counted
      as skipped, any other record appends its submission. */
  method Emit(ghost recs: seq<S3Record>, result: seq<S3ImageSubmission>, skipped: nat,
              rec: S3Record, imagePrefix: string, idOf: ContentIdOf)
    returns (result': seq<S3ImageSubmission>, skipped': nat)
    requires result == Submissions(recs, imagePrefix, idOf) && skipped == CountEmpty(recs)
    ensures result' == Submissions(recs + [rec], imagePrefix, idOf)
    ensures skipped' == CountEmpty(recs + [rec])
  {
    SubmissionsSnoc(recs, rec, imagePrefix, idOf);
    if IsEmptyObject(rec) {
      result', skipped' := result, skipped + 1;
    } else {
      result', skipped' := result + [ToSubmission(rec, imagePrefix, idOf)], skipped;
    }
  }

  /** One step of the loop: the next record either ends the whole read with its
      exception or extends the records read so far. */
  lemma ReadStep(elems: seq<Json>, i: nat, recs: seq<S3Record>)
    requires i < |elems| && ExtractAll(elems[..i]) == Success(recs)
    ensures ExtractRecord(elems[i]).Failure? ==>
      ExtractAll(elems) == Failure(ExtractRecord(elems[i]).error)
    ensures ExtractRecord(elems[i]).Success? ==>
      ExtractAll(elems[..i + 1]) == Success(recs + [ExtractRecord(elems[i]).value])
  {
    assert elems[..i + 1][..i] == elems[..i];
    if ExtractRecord(elems[i]).Failure? {
      ExtractAllPrefixFailure(elems, i + 1);
    }
  }

  /** Appending one record appends its submission, or counts it as skipped. */
  lemma SubmissionsSnoc(recs: seq<S3Record>, rec: S3Record, imagePrefix: string, idOf: ContentIdOf)
    ensures IsEmptyObject(rec) ==>
      && Submissions(recs + [rec], imagePrefix, idOf) == Submissions(recs, imagePrefix, idOf)
      && CountEmpty(recs + [rec]) == CountEmpty(recs) + 1
    ensures !IsEmptyObject(rec) ==>
      && Submissions(recs + [rec], imagePrefix, idOf) == Submissions(recs, imagePrefix, idOf) + [ToSubmission(rec, imagePrefix, idOf)]
      && CountEmpty(recs + [rec]) == CountEmpty(recs)
  {
    assert (recs + [rec])[..|recs|] == recs;
  }

  /** Once a prefix of the records fails to read, the whole list fails with the
      same exception. */
  lemma {:induction false} ExtractAllPrefixFailure(elems: seq<Json>, n: nat)
    requires n <= |elems|
    requires ExtractAll(elems[..n]).Failure?
    ensures ExtractAll(elems) == ExtractAll(elems[..n])
    decreases |elems| - n
  {
    if n < |elems| {
      assert elems[..n + 1][..n] == elems[..n];
      ExtractAllPrefixFailure(elems, n + 1);
    } else {
      assert elems[..n] == elems;
    }
  }

  // ---------------------------------------------------------------------------
  // Recognising a batch notification
  // ---------------------------------------------------------------------------

  /** `could_be`: `Records` is present, has positive length, and its first
      element contains `s3`, checked left to right with short-circuit, so that
      an absent or empty `Records` is answered without indexing it. */
  function CouldBe(d: map<string, Json>): (r: Result<bool, PyError>)
    ensures RecordsKey !in d ==> r == Success(false)
    ensures RecordsKey in d && Len(d[RecordsKey]) == Success(0) ==> r == Success(false)
    ensures r == Success(true) ==> RecordsKey in d && Len(d[RecordsKey]).Success? && Len(d[RecordsKey]).value > 0
  {
    if RecordsKey !in d then Success(false)
    else
      var n :- Len(d[RecordsKey]);
      if n == 0 then Success(false)
      else
        var first :- IndexZero(d[RecordsKey]);
        Contains(first, "s3")
  }

  /** On a non-empty list of records whose first record is a dict, the answer is
      whether that record has an `s3` key. */
  lemma CouldBeOnRecordList(d: map<string, Json>)
    requires RecordsKey in d && d[RecordsKey].JArray? && |d[RecordsKey].items| > 0
    requires d[RecordsKey].items[0].JObject?
    ensures CouldBe(d) == Success("s3" in d[RecordsKey].items[0].fields)
  {
  }

  /** `could_be` raises, rather than answering `False`, when `Records` has no
      length or its first element is not a container. */
  lemma CouldBeRaises(d: map<string, Json>)
    ensures RecordsKey in d && Len(d[RecordsKey]).Failure? ==> CouldBe(d) == Failure(TypeError)
    ensures RecordsKey in d && d[RecordsKey].JArray? && |d[RecordsKey].items| > 0
      && (d[RecordsKey].items[0].JNum? || d[RecordsKey].items[0].JBool? || d[RecordsKey].items[0].JNull?)
      ==> CouldBe(d) == Failure(TypeError)
    ensures RecordsKey in d && d[RecordsKey].JObject? && |d[RecordsKey].fields| > 0
      ==> CouldBe(d) == Failure(KeyError(JNum(0)))
  {
  }

  /** On every notification the parser accepts, `could_be` answers without an
      exception, and answers `True` exactly when there is at least one record. */
  lemma CouldBeOnParseable(d: map<string, Json>, imagePrefix: string, idOf: ContentIdOf)
    requires FromSqsMessage(d, imagePrefix, idOf).Success?
    ensures CouldBe(d) == Success(|RecordElements(d[RecordsKey]).value| > 0)
  {
    var elems := RecordElements(d[RecordsKey]).value;
    ExtractAllSpec(elems);
    if |elems| > 0 {
      assert WellFormedRecord(elems[0]);
    }
  }

  /** One possible content id convention, the key with the prefix removed. It
      is used only by the example lemmas below; nothing else assumes it. */
  function StripPrefix(key: string, prefix: string): string
  {
    if prefix <= key then key[|prefix|..] else key
  }

  /** A notification record in the shape storage sends it, restricted to the
      fields the parser reads; reading it back gives the same three fields. */
  function NotificationRecord(bucket: string, rawKey: string, size: int): (e: Json)
    ensures WellFormedRecord(e)
    ensures RecordOf(e) == S3Record(JStr(bucket), rawKey, JNum(size))
  {
    JObject(map["s3" := JObject(map[
      "bucket" := JObject(map["name" := JStr(bucket)]),
      "object" := JObject(map["key" := JStr(rawKey), "size" := JNum(size)])])])
  }

  /** A notification of two records in bucket "b" under prefix "img/submissions/",
      with `StripPrefix` as the content id convention: the first record,
      "img%2Fsubmissions/a.jpg" of size 0, is a folder marker and is skipped;
      the second, "img/submissions/b.jpg" of 1024 bytes, gives the one
      submission ("b.jpg", "b", "img/submissions/b.jpg"). */
  lemma ParseFolderMarkerAndImage()
    ensures
      var r0 := NotificationRecord("b", "img%2Fsubmissions/a.jpg", 0);
      var r1 := NotificationRecord("b", "img/submissions/b.jpg", 1024);
      FromSqsMessage(map[RecordsKey := JArray([r0, r1])], "img/submissions/", StripPrefix)
        == Success(S3ImageSubmissionBatchMessage([S3ImageSubmission("b.jpg", JStr("b"), "img/submissions/b.jpg")]))
  {
    var r0 := NotificationRecord("b", "img%2Fsubmissions/a.jpg", 0);
    var r1 := NotificationRecord("b", "img/submissions/b.jpg", 1024);
    ReadTwoRecords(r0, r1);
    SkipThenKeep(RecordOf(r0), RecordOf(r1), "img/submissions/", StripPrefix);
    ImageKeySplit();
    KeptImageSubmission(JStr("b"), JNum(1024), "img/submissions/", "b.jpg", "img/submissions/b.jpg");
  }

  /** The kept key is the plain prefix followed by the plain file name. Like
      the other small lemmas of this section, it states one fact about the
      literals, so that no proof about a record has to take a literal string
      apart character by character. */
  lemma ImageKeySplit()
    ensures "img/submissions/b.jpg" == "img/submissions/" + "b.jpg"
    ensures IsPlain("img/submissions/") && IsPlain("b.jpg")
  {
  }

  /** Reading two well-formed records. */
  lemma ReadTwoRecords(r0: Json, r1: Json)
    requires WellFormedRecord(r0) && WellFormedRecord(r1)
    ensures ExtractAll([r0, r1]) == Success([RecordOf(r0), RecordOf(r1)])
  {
    ExtractAllSpec([r0, r1]);
    var read := ExtractAll([r0, r1]);
    assert read.value == [RecordOf(r0), RecordOf(r1)];
  }

  /** An empty object followed by a non-empty one gives one submission. */
  lemma SkipThenKeep(rec0: S3Record, rec1: S3Record, imagePrefix: string, idOf: ContentIdOf)
    requires IsEmptyObject(rec0) && !IsEmptyObject(rec1)
    ensures Submissions([rec0, rec1], imagePrefix, idOf) == [ToSubmission(rec1, imagePrefix, idOf)]
  {
    SubmissionsSnoc([], rec0, imagePrefix, idOf);
    SubmissionsSnoc([rec0], rec1, imagePrefix, idOf);
    assert [rec0] + [rec1] == [rec0, rec1];
  }

  /** A record of non-zero size whose key is a plain prefix followed by a
      plain file name is kept, and gives, under `StripPrefix`, the file name as
      its content id, its bucket, and the key unchanged. */
  lemma KeptImageSubmission(bucket: Json, size: Json, prefix: string, name: string, key: string)
    requires !EqualsZero(size)
    requires IsPlain(prefix) && IsPlain(name) && key == prefix + name
    ensures !IsEmptyObject(S3Record(bucket, key, size))
    ensures ToSubmission(S3Record(bucket, key, size), prefix, StripPrefix)
      == S3ImageSubmission(name, bucket, key)
  {
    UnquoteConcatPlain(prefix, name);
    UnquotePlainKey(name);
    assert prefix <= key && key[|prefix|..] == name;
  }
}
