/**
 * The storage service over one cloud bucket: original uploads live under
 * `documents/<filename>`, processed records under
 * `processed/<filename>.json`, and both writes answer with a `gs://` URI.
 * The bucket is a map from object key to bytes; JSON encoding and decoding
 * of processed records are passed in as functions.
 */
module StorageService {
  import opened Wrappers
  import opened PyText
  import opened Json

  const DocumentsPrefix := "documents/"
  const ProcessedPrefix := "processed/"
  const JsonSuffix := ".json"

  type Bucket = map<string, seq<Byte>>

  function DocumentKey(filename: string): string
  {
    DocumentsPrefix + filename
  }

  function ProcessedKey(filename: string): string
  {
    ProcessedPrefix + filename + JsonSuffix
  }

  function GsUri(bucketName: string, key: string): string
  {
    "gs://" + bucketName + "/" + key
  }

  /** The name `list_documents` shows for a key: every `documents/` removed, wherever it stands. */
  function DocumentName(key: string): string
  {
    RemoveAll(key, DocumentsPrefix)
  }

  /** The name `list_processed` shows for a key: every `processed/`, then every `.json`, removed. */
  function ProcessedName(key: string): string
  {
    RemoveAll(RemoveAll(key, ProcessedPrefix), JsonSuffix)
  }

  /** The keys `list_blobs` returns for a prefix. */
  function Prefixed(objects: Bucket, prefix: string): set<string>
  {
    set key | key in objects && prefix <= key
  }

  /** A document key lists under `documents/` and never under `processed/`, and the other way round. */
  lemma KeysApart(f: string, g: string)
    ensures DocumentsPrefix <= DocumentKey(f) && !(ProcessedPrefix <= DocumentKey(f))
    ensures ProcessedPrefix <= ProcessedKey(g) && !(DocumentsPrefix <= ProcessedKey(g))
  {
    assert DocumentKey(f)[0] == 'd';
    assert ProcessedKey(g)[0] == 'p';
  }

  /**
   * An uploaded file lists back under its own name exactly when the name
   * does not itself contain `documents/`; otherwise that piece is cut out.
   */
  lemma DocumentNameRoundTrip(filename: string)
    ensures DocumentName(DocumentKey(filename)) == RemoveAll(filename, DocumentsPrefix)
    ensures DocumentName(DocumentKey(filename)) == filename <==> !Contains(filename, DocumentsPrefix)
  {
    RemoveAllLeading(DocumentsPrefix, filename);
    RemoveAllUnchanged(filename, DocumentsPrefix);
  }

  lemma JsonSuffixNoBorder()
    ensures NoBorder(JsonSuffix)
  {
    forall k | 0 < k < |JsonSuffix| ensures JsonSuffix[k..] != JsonSuffix[..|JsonSuffix| - k] {
      assert JsonSuffix[k..][0] != JsonSuffix[..|JsonSuffix| - k][0];
    }
  }

  /**
   * A stored record lists back under its own name exactly when the name
   * contains neither `processed/` nor `.json`; otherwise every such piece
   * is cut out.
   */
  lemma ProcessedNameRoundTrip(filename: string)
    ensures ProcessedName(ProcessedKey(filename)) == RemoveAll(RemoveAll(filename, ProcessedPrefix), JsonSuffix)
    ensures ProcessedName(ProcessedKey(filename)) == filename <==>
      !Contains(filename, ProcessedPrefix) && !Contains(filename, JsonSuffix)
  {
    var inner := RemoveAll(filename, ProcessedPrefix);
    assert ProcessedKey(filename) == ProcessedPrefix + (filename + JsonSuffix);
    RemoveAllLeading(ProcessedPrefix, filename + JsonSuffix);
    RemoveAllKeepsTail(filename, JsonSuffix, ProcessedPrefix);
    JsonSuffixNoBorder();
    RemoveAllTrailing(inner, JsonSuffix);
    RemoveAllUnchanged(filename, ProcessedPrefix);
    RemoveAllUnchanged(inner, JsonSuffix);
  }

  /** A file named `a.json` lists as `a`. */
  lemma JsonNamedFileListsShort()
    ensures ProcessedName(ProcessedKey("a.json")) == "a"
  {
    ProcessedNameRoundTrip("a.json");
    RemoveAllAbsent("a.json", ProcessedPrefix);
    assert "a.json" == "a" + JsonSuffix;
    JsonSuffixNoBorder();
    RemoveAllTrailing("a", JsonSuffix);
  }

  /** What `get_processed` reads: the stored bytes decoded, `None` when the object is missing or does not parse. */
  function ReadProcessed(objects: Bucket, filename: string, loads: seq<Byte> -> Option<Json>): Option<Json>
  {
    if ProcessedKey(filename) in objects then loads(objects[ProcessedKey(filename)]) else None
  }

  /** With an encoding that decodes back, a stored record reads back as itself, and storing again replaces it. */
  lemma ProcessedRoundTrip(objects: Bucket, filename: string, first: Json, second: Json,
                           dumps: Json -> seq<Byte>, loads: seq<Byte> -> Option<Json>)
    requires loads(dumps(first)) == Some(first) && loads(dumps(second)) == Some(second)
    ensures ReadProcessed(objects[ProcessedKey(filename) := dumps(first)], filename, loads) == Some(first)
    ensures ReadProcessed(objects[ProcessedKey(filename) := dumps(first)][ProcessedKey(filename) := dumps(second)],
                          filename, loads) == Some(second)
  {
  }

  /** The service over its bucket. */
  class StorageService {
    const bucketName: string
    var objects: Bucket

    constructor(bucketName: string, existing: Bucket)
      ensures this.bucketName == bucketName && objects == existing
    {
      this.bucketName := bucketName;
      objects := existing;
    }

    /** `upload_file`: writes the bytes under `documents/<filename>`, replacing any earlier upload of that name. */
    method UploadFile(content: seq<Byte>, filename: string) returns (uri: string)
      modifies this
      ensures objects == old(objects)[DocumentKey(filename) := content]
      ensures uri == GsUri(bucketName, DocumentKey(filename))
    {
      objects := objects[DocumentsPrefix + filename := content];
      uri := "gs://" + bucketName + "/documents/" + filename;
      assert "gs://" + bucketName + "/documents/" + filename == GsUri(bucketName, DocumentKey(filename));
    }

    /** `store_processed_content`: writes the encoded record under `processed/<filename>.json`, replacing any earlier one. */
    method StoreProcessedContent(filename: string, processed: Json, dumps: Json -> seq<Byte>) returns (uri: string)
      modifies this
      ensures objects == old(objects)[ProcessedKey(filename) := dumps(processed)]
      ensures uri == GsUri(bucketName, ProcessedKey(filename))
    {
      objects := objects[ProcessedPrefix + filename + JsonSuffix := dumps(processed)];
      uri := "gs://" + bucketName + "/processed/" + filename + ".json";
      assert "gs://" + bucketName + "/processed/" + filename + ".json" == GsUri(bucketName, ProcessedKey(filename));
    }

    /** `list_blobs` with a prefix: every key that starts with it, once each, in no particular order. */
    method ListBlobs(prefix: string) returns (keys: seq<string>)
      ensures forall i, j :: 0 <= i < j < |keys| ==> keys[i] != keys[j]
      ensures forall key :: key in keys <==> key in Prefixed(objects, prefix)
    {
      var remaining := Prefixed(objects, prefix);
      keys := [];
      while remaining != {}
        invariant forall i, j :: 0 <= i < j < |keys| ==> keys[i] != keys[j]
        invariant forall key :: key in keys ==> key !in remaining
        invariant forall key :: key in Prefixed(objects, prefix) <==> key in keys || key in remaining
        decreases |remaining|
      {
        var key :| key in remaining;
        keys := keys + [key];
        remaining := remaining - {key};
      }
    }

    /** `list_documents`: the name of every uploaded document, with each `documents/` removed. */
    method ListDocuments() returns (names: seq<string>, ghost keys: seq<string>)
      ensures forall i, j :: 0 <= i < j < |keys| ==> keys[i] != keys[j]
      ensures forall key :: key in keys <==> key in Prefixed(objects, DocumentsPrefix)
      ensures |names| == |keys| && forall i :: 0 <= i < |names| ==> names[i] == DocumentName(keys[i])
      ensures |names| == |Prefixed(objects, DocumentsPrefix)|
      ensures forall key :: key in Prefixed(objects, DocumentsPrefix) ==> DocumentName(key) in names
      ensures forall i :: 0 <= i < |names| ==> exists key :: key in Prefixed(objects, DocumentsPrefix) && names[i] == DocumentName(key)
    {
      var blobs := ListBlobs(DocumentsPrefix);
      DistinctCount(blobs, Prefixed(objects, DocumentsPrefix));
      names := seq(|blobs|, i requires 0 <= i < |blobs| => DocumentName(blobs[i]));
      keys := blobs;
      forall key | key in Prefixed(objects, DocumentsPrefix) ensures DocumentName(key) in names {
        var i :| 0 <= i < |blobs| && blobs[i] == key;
        assert names[i] == DocumentName(key);
      }
    }

    /** `list_processed`: the name of every processed record, with each `processed/` and `.json` removed. */
    method ListProcessed() returns (names: seq<string>, ghost keys: seq<string>)
      ensures forall i, j :: 0 <= i < j < |keys| ==> keys[i] != keys[j]
      ensures forall key :: key in keys <==> key in Prefixed(objects, ProcessedPrefix)
      ensures |names| == |keys| && forall i :: 0 <= i < |names| ==> names[i] == ProcessedName(keys[i])
      ensures |names| == |Prefixed(objects, ProcessedPrefix)|
      ensures forall key :: key in Prefixed(objects, ProcessedPrefix) ==> ProcessedName(key) in names
      ensures forall i :: 0 <= i < |names| ==> exists key :: key in Prefixed(objects, ProcessedPrefix) && names[i] == ProcessedName(key)
    {
      var blobs := ListBlobs(ProcessedPrefix);
      DistinctCount(blobs, Prefixed(objects, ProcessedPrefix));
      names := seq(|blobs|, i requires 0 <= i < |blobs| => ProcessedName(blobs[i]));
      keys := blobs;
      forall key | key in Prefixed(objects, ProcessedPrefix) ensures ProcessedName(key) in names {
        var i :| 0 <= i < |blobs| && blobs[i] == key;
        assert names[i] == ProcessedName(key);
      }
    }

    /** `get_document`: the uploaded bytes; `None` where the download fails because there is no such object. */
    method GetDocument(filename: string) returns (content: Option<seq<Byte>>)
      ensures content.Some? <==> DocumentKey(filename) in objects
      ensures content.Some? ==> content.value == objects[DocumentKey(filename)]
    {
      var key := DocumentsPrefix + filename;
      if key in objects {
        content := Some(objects[key]);
      } else {
        content := None;
      }
    }

    /** `get_processed`: the stored record decoded. */
    method GetProcessed(filename: string, loads: seq<Byte> -> Option<Json>) returns (r: Option<Json>)
      ensures r == ReadProcessed(objects, filename, loads)
    {
      var key := ProcessedPrefix + filename + JsonSuffix;
      if key in objects {
        r := loads(objects[key]);
      } else {
        r := None;
      }
    }
  }

  /** A list of distinct keys that holds exactly the members of a set is as long as the set is large. */
  lemma {:induction false} DistinctCount(keys: seq<string>, members: set<string>)
    requires forall i, j :: 0 <= i < j < |keys| ==> keys[i] != keys[j]
    requires forall key :: key in keys <==> key in members
    ensures |keys| == |members|
  {
    if keys != [] {
      var last := keys[|keys| - 1];
      var front := keys[..|keys| - 1];
      forall key ensures key in front <==> key in members - {last} {
        if key in front {
          var i :| 0 <= i < |front| && front[i] == key;
          assert keys[i] == key;
        }
        if key in keys && key != last {
          var i :| 0 <= i < |keys| && keys[i] == key;
          assert i < |keys| - 1;
          assert front[i] == key;
        }
      }
      DistinctCount(front, members - {last});
    } else {
      forall key ensures key !in members {
        assert key !in keys;
      }
      assert members == {};
    }
  }
}
