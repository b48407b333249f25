# Submission message shaping (hasher-matcher-actioner)

A Dafny model of the message adapters in `hmalib/common/messages/submit.py`.
They turn the two kinds of inbound queue payload into typed submission messages:

- `URLSubmissionMessage` is a submission that names its content by URL. Its codec
  writes a four-key payload (`ContentType`, `ContentId`, `URL`, `EventType`),
  reads it back, and offers the cheap family test `could_be`.
- `S3ImageSubmissionBatchMessage` is built from one storage "object created" batch
  notification. The parser walks `Records` in order and decodes each object key
  with `unquote_plus`. It drops objects whose size equals 0 (folder markers,
  empty files). Every other record becomes one `S3ImageSubmission(content_id,
  bucket, key)`, with the content id derived from the decoded key and the image
  prefix. Its `could_be` recognises such a notification.

Modules, one per concern:

| file | module | what it holds |
|---|---|---|
| `wrappers.dfy` | `Wrappers` | `Result`, so that `:-` propagates a Python exception |
| `py_value.dfy` | `PyValue` | the JSON values of a notification and the Python operations the parsers apply to them: `d[k]`, `len`, `v[0]`, `in`, `== 0` |
| `percent_coding.dfy` | `PercentCoding` | `UnquotePlus`, which models `unquote_plus`, and `QuotePlus`, a one-byte form-urlencoder used only as its inverse |
| `url_submission.dfy` | `UrlSubmission` | the URL submission codec and `could_be` |
| `s3_submission.dfy` | `S3Submission` | record reading, the filter-map over records, the batch parser (as a function and as the source's loop) and `could_be` |

Every raising Python expression returns a `Result` carrying the exception that
Python would raise (`KeyError`, `IndexError`, `TypeError`, `AttributeError`).
None of these cases is excluded by a precondition.

Behaviour of the code that the model keeps, although a reader might expect
otherwise:

- A missing key raises Python's own `KeyError`. There is no dedicated
  malformed-message error. A value of the wrong shape raises `TypeError` or
  `AttributeError`.
- The storage family's `could_be` can raise. It raises `TypeError` when
  `Records` has no length (a number, say). It raises `KeyError(0)` when
  `Records` is a non-empty dict. `CouldBeRaises` states these cases.
- The content id comes from `S3BucketContentSource.get_content_id_from_s3_key`,
  which is not part of this model. It is the parameter `idOf`, and nothing is
  assumed about it. `StripPrefix` is one possible convention; only the example lemmas
  `KeptImageSubmission` and `ParseFolderMarkerAndImage` use it.
- `from_sqs_message` stores the payload's `ContentType` string in
  `content_type` (submit.py:46), where a submitter's message holds a
  content-type class. `to_sqs_message` calls `get_name()` on that field
  (submit.py:37). A decoded message therefore cannot be encoded again: doing so
  raises `AttributeError` (`ReencodeDecodedRaises`). Encoding a submitter's
  message and decoding the payload gives back the same message with the class
  replaced by its name string (`ToSqsMessage`).

## Model

| member | source | states |
|---|---|---|
| `UrlSubmission.ToSqsMessage` | hasher-matcher-actioner/hmalib/common/messages/submit.py:35-50 | encoding succeeds exactly when content_type is a class, and otherwise raises AttributeError at get_name(); the payload has exactly the keys ContentType, ContentId, URL, EventType, each holding its field (the content type by the name get_name() returns); decoding that payload gives back the same message with the class replaced by its name string |
| `UrlSubmission.FromSqsMessage` | hasher-matcher-actioner/hmalib/common/messages/submit.py:43-50 | decoding succeeds exactly when all four keys are present, whatever their values, and copies each value into its field, the content type as the raw string; otherwise it raises KeyError naming the first missing key in the order ContentType, ContentId, URL, EventType |
| `UrlSubmission.ReencodeDecodedRaises` | hasher-matcher-actioner/hmalib/common/messages/submit.py:35-50 | encoding a decoded message always raises AttributeError, because the decoded content_type is a string and to_sqs_message calls get_name() on it |
| `UrlSubmission.DefaultEventType` | hasher-matcher-actioner/hmalib/common/messages/submit.py:26-41 | a message built from a content-type class with event_type left at its default encodes, carries "URLSubmission" under EventType, and passes could_be |
| `UrlSubmission.DecodableCouldBe` | hasher-matcher-actioner/hmalib/common/messages/submit.py:35-58 | every payload the decoder accepts, and every payload the encoder produces, passes could_be |
| `UrlSubmission.CouldBeDoesNotImplyDecodable` | hasher-matcher-actioner/hmalib/common/messages/submit.py:44-58 | could_be is not authoritative: a payload with only EventType passes it and fails to decode with KeyError on ContentType |
| `PercentCoding.UnquotePlus` | hasher-matcher-actioner/hmalib/common/messages/submit.py:97 | the decoded key is never longer than the encoded one |
| `PercentCoding.UnquoteQuote` | hasher-matcher-actioner/hmalib/common/messages/submit.py:97 | decoding inverts form-urlencoding (space as +, other reserved characters as %HH) for every key of one-byte characters |
| `PercentCoding.UnquotePlainKey` | hasher-matcher-actioner/hmalib/common/messages/submit.py:97 | a key with no + and no % decodes to itself |
| `PercentCoding.UnquoteConcatPlain` | hasher-matcher-actioner/hmalib/common/messages/submit.py:97 | a leading segment with no + and no % is copied unchanged, and decoding continues after it |
| `PercentCoding.DecodeSegments` | hasher-matcher-actioner/hmalib/common/messages/submit.py:97 | plain segments joined by + and by %20 decode to the same segments joined by spaces |
| `PercentCoding.DecodeFolderNameFileOne` | hasher-matcher-actioner/hmalib/common/messages/submit.py:97 | "folder+name/file%20one.jpg" decodes to "folder name/file one.jpg" |
| `S3Submission.ExtractRecord` | hasher-matcher-actioner/hmalib/common/messages/submit.py:95-100 | reading one record succeeds exactly when it has s3.bucket.name, a string s3.object.key and s3.object.size, and then yields those three values; a non-dict record raises TypeError, a dict without s3 raises KeyError |
| `S3Submission.RecordElements` | hasher-matcher-actioner/hmalib/common/messages/submit.py:95 | iterating a list of records yields its elements, and only a list, dict or string can yield anything |
| `S3Submission.ExtractAll` | hasher-matcher-actioner/hmalib/common/messages/submit.py:95-100 | when every record reads, there is one read record per notification record |
| `S3Submission.ExtractAllSpec` | hasher-matcher-actioner/hmalib/common/messages/submit.py:95-100 | reading all records succeeds exactly when every record is well formed, and then yields each record's fields in record order |
| `S3Submission.ExtractAllFirstError` | hasher-matcher-actioner/hmalib/common/messages/submit.py:95-100 | when reading fails, the exception is the one raised by the first malformed record; records after it are never reached |
| `S3Submission.Submissions` | hasher-matcher-actioner/hmalib/common/messages/submit.py:93-109 | there are never more submissions than records |
| `S3Submission.SurvivorIndices` | hasher-matcher-actioner/hmalib/common/messages/submit.py:99-102 | the positions of the non-empty records: strictly increasing, in range, each non-empty, and every non-empty record listed |
| `S3Submission.SubmissionsSelectSurvivors` | hasher-matcher-actioner/hmalib/common/messages/submit.py:93-109 | the j-th submission comes from the j-th non-empty record, so order is kept and only size-0 records are dropped: bucket copied, key decoded, content id from the decoded key and prefix |
| `S3Submission.SubmissionsPlusSkipped` | hasher-matcher-actioner/hmalib/common/messages/submit.py:99-107 | submissions plus skipped empty objects account for every record |
| `S3Submission.CountEmptyPositive` | hasher-matcher-actioner/hmalib/common/messages/submit.py:99-102 | the skipped count is positive exactly when some record is an empty object |
| `S3Submission.FewerIffSomeEmpty` | hasher-matcher-actioner/hmalib/common/messages/submit.py:99-109 | the batch is strictly shorter than the notification exactly when some record has size 0 |
| `S3Submission.ContentIdOnlyForKept` | hasher-matcher-actioner/hmalib/common/messages/submit.py:99-106 | the content id convention is consulted only for kept records: changing it on keys of skipped records changes nothing |
| `S3Submission.FromSqsMessage` | hasher-matcher-actioner/hmalib/common/messages/submit.py:89-109 | a notification without Records raises KeyError; a parsed batch is never longer than the record list |
| `S3Submission.FromSqsMessageWellFormed` | hasher-matcher-actioner/hmalib/common/messages/submit.py:93-109 | a list of well-formed records always parses, one submission per record of non-zero size, in order, with bucket, decoded key and derived content id |
| `S3Submission.ParseBatch` | hasher-matcher-actioner/hmalib/common/messages/submit.py:93-109 | looking up Records and running the record loop gives the same outcome, exception included, as the functional parser; on success it emits or skips, and counts, every record |
| `S3Submission.ParseRecords` | hasher-matcher-actioner/hmalib/common/messages/submit.py:95-107 | the record-by-record loop stops with the exception of the first record that fails to read; otherwise it yields the submissions of the records read, and submissions plus skipped records account for every element |
| `S3Submission.Emit` | hasher-matcher-actioner/hmalib/common/messages/submit.py:99-107 | for one record read, a size-0 record adds one to the skipped count and nothing to the result, any other appends its submission; both stay those of the records read so far |
| `S3Submission.NotificationRecord` | hasher-matcher-actioner/hmalib/common/messages/submit.py:96-100 | a record in the shape storage sends reads back as the same bucket, key and size |
| `S3Submission.CouldBe` | hasher-matcher-actioner/hmalib/common/messages/submit.py:111-117 | an absent or empty Records gives False without an exception (short-circuit); True only when Records is present and non-empty |
| `S3Submission.CouldBeOnRecordList` | hasher-matcher-actioner/hmalib/common/messages/submit.py:117 | for a non-empty list whose first record is a dict, the answer is whether that record has an s3 key |
| `S3Submission.CouldBeRaises` | hasher-matcher-actioner/hmalib/common/messages/submit.py:117 | a Records value without a length, or a first record that is a number, boolean or None, raises TypeError; a non-empty dict raises KeyError(0) |
| `S3Submission.CouldBeOnParseable` | hasher-matcher-actioner/hmalib/common/messages/submit.py:95-117 | on every notification the parser accepts, could_be answers without an exception, and answers True exactly when there is at least one record |
| `S3Submission.KeptImageSubmission` | hasher-matcher-actioner/hmalib/common/messages/submit.py:96-107 | a record of any bucket whose size is not 0 (nor False) is kept, and when its key is a plain prefix followed by a plain file name it gives, under the strip-prefix convention, the file name as content id, the bucket, and the key unchanged |
| `S3Submission.ParseFolderMarkerAndImage` | hasher-matcher-actioner/hmalib/common/messages/submit.py:93-109 | of a size-0 record "img%2Fsubmissions/a.jpg" and a 1024-byte record "img/submissions/b.jpg" under prefix "img/submissions/", only the second is emitted, as ("b.jpg", "b", "img/submissions/b.jpg") under the strip-prefix convention |

## Left out

- `open-media-match/src/OpenMediaMatch/storage/mocked.py` is a test double for a different component. Its methods return fixed configurations or an index built from sample signals, keep a dict of banks that `bank_update` puts into and `bank_delete` pops from (`get_banks` returns a copy), return `None` or do nothing for collaboration fetch data, or raise "Not implemented".
- The log call for a skipped record (submit.py:101) is observability only. `ParseBatch` returns the number of skipped records instead.
- `S3BucketContentSource.get_content_id_from_s3_key` is not part of this model. It is the function parameter `idOf`, taken to be total. If the real function raises on a key outside the prefix, that exception is not modelled.
- The content-type registry is not modelled. A content-type class is seen only through the name its `get_name()` returns (`ContentTypeClass`).
- Queue transport (SNS/SQS), storage event delivery and retries are not modelled.
- The dispatcher that tries each family's `could_be` in turn lives outside this source, so its probe order is not modelled.
- PercentCoding.UnquotePlus: maps every `%HH` escape to the character with code HH. Python decodes runs of escaped bytes as UTF-8 and replaces invalid sequences. The two agree on every key whose decoded name is ASCII. Storage sends object keys percent-encoded, so a non-ASCII name arrives as escapes of `%80` or above: the key `caf%C3%A9.jpg` decodes to `café.jpg` in Python and to two Latin-1 characters in place of `é` here.
- UrlSubmission.FromSqsMessage: payload values are modelled as strings. Python would carry a value of any JSON type into the dataclass unchanged.
- S3Submission.IsEmptyObject: JSON floating-point sizes are not modelled. In Python `0.0 == 0`, so a size of `0.0` would also be skipped.
- S3Submission.RecordElements: iterating a non-empty dict or string yields string keys or characters. The loop body's `s3_record["s3"]` then raises `TypeError` on the first one. The model returns that `TypeError` directly and does not enumerate dict keys in insertion order.
