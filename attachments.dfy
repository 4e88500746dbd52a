/**
 * Publishing the exported file as a dataset attachment: the uploaded file's
 * name, the removal of the first attachment that already has that name, and
 * the new entry appended last.
 */
module Attachments {
  import opened Values

  /** One entry of the dataset's `attachments` list. */
  type Attachment = Object

  /** The attachment's `name` is exactly the string `name`. */
  predicate Named(a: Attachment, name: string) {
    "name" in a && a["name"] == Str(name)
  }

  /** The last segment of a slash-separated path: what follows its last `/`. */
  function LastSegment(p: string): (r: string)
    ensures '/' !in r
    ensures |r| <= |p| && p[|p| - |r|..] == r
    ensures |r| == |p| || p[|p| - |r| - 1] == '/'
  {
    if p == [] then []
    else if p[|p| - 1] == '/' then []
    else LastSegment(p[..|p| - 1]) + [p[|p| - 1]]
  }

  /**
   * The base name of the CSV file's path: the temporary directory joined with
   * the configured file name and the `.csv` extension. The joined path is
   * modelled without normalisation: normalising only rewrites the segments
   * before the last one, and the last one, ending in `.csv`, is never `.` or `..`.
   */
  function UploadName(tmpDir: string, filename: string): string
  {
    LastSegment(tmpDir + "/" + filename + ".csv")
  }

  lemma {:induction false} LastSegmentAfter(a: string, b: string)
    ensures LastSegment(a + "/" + b) == LastSegment(b)
    decreases |b|
  {
    var p := a + "/" + b;
    if b == [] {
      assert p == a + "/";
    } else {
      assert p[..|p| - 1] == a + "/" + b[..|b| - 1];
      assert p[|p| - 1] == b[|b| - 1];
      LastSegmentAfter(a, b[..|b| - 1]);
    }
  }

  /** The upload is named after the file name alone, whatever the directory: `filename.csv` when it holds no `/`. */
  lemma UploadNameIs(tmpDir: string, filename: string)
    ensures UploadName(tmpDir, filename) == LastSegment(filename + ".csv")
    ensures '/' !in filename ==> UploadName(tmpDir, filename) == filename + ".csv"
  {
    Assoc(tmpDir + "/", filename, ".csv");
    LastSegmentAfter(tmpDir, filename + ".csv");
    if '/' !in filename {
      CsvNameHasNoSlash(filename);
      LastSegmentWhole(filename + ".csv");
    }
  }

  lemma CsvNameHasNoSlash(filename: string)
    requires '/' !in filename
    ensures '/' !in filename + ".csv"
  {
    var p := filename + ".csv";
    forall i | 0 <= i < |p| ensures p[i] != '/' {
      if i < |filename| {
        assert p[i] == filename[i];
      } else {
        assert p[i] == ".csv"[i - |filename|];
      }
    }
  }

  lemma LastSegmentWhole(p: string)
    requires '/' !in p
    ensures LastSegment(p) == p
  {
    assert p[0..] == p;
  }

  /** The index of the first attachment named `name`, or -1 when there is none. */
  method FindIndex(attachments: seq<Attachment>, name: string) returns (idx: int)
    ensures -1 <= idx < |attachments|
    ensures 0 <= idx ==> Named(attachments[idx], name)
    ensures forall k :: 0 <= k < |attachments| && (idx < 0 || k < idx) ==> !Named(attachments[k], name)
  {
    var i := 0;
    while i < |attachments|
      invariant 0 <= i <= |attachments|
      invariant forall k :: 0 <= k < i ==> !Named(attachments[k], name)
    {
      if Named(attachments[i], name) {
        return i;
      }
      i := i + 1;
    }
    return -1;
  }

  /** Reference definition: the list without its first entry named `name`, if any. */
  function WithoutFirst(attachments: seq<Attachment>, name: string): seq<Attachment>
  {
    if attachments == [] then []
    else if Named(attachments[0], name) then attachments[1..]
    else [attachments[0]] + WithoutFirst(attachments[1..], name)
  }

  /** The number of entries named `name`. */
  function Count(attachments: seq<Attachment>, name: string): nat
  {
    if attachments == [] then 0
    else (if Named(attachments[0], name) then 1 else 0) + Count(attachments[1..], name)
  }

  /** The new attachment: a copy of the upload response with `type` set to `file` and `title` to the label. */
  function NewEntry(uploaded: Object, title: string): (e: Attachment)
    ensures e.Keys == uploaded.Keys + {"type", "title"}
    ensures e["type"] == Str("file") && e["title"] == Str(title)
    ensures forall k :: k in uploaded && k != "type" && k != "title" ==> e[k] == uploaded[k]
  {
    uploaded["type" := Str("file")]["title" := Str(title)]
  }

  /** The attachment list sent back: the old one without its first entry named `name`, then the new entry. */
  function Replaced(attachments: seq<Attachment>, name: string, entry: Attachment): seq<Attachment>
  {
    WithoutFirst(attachments, name) + [entry]
  }

  lemma {:induction false} WithoutFirstAt(attachments: seq<Attachment>, name: string, idx: nat)
    requires idx < |attachments| && Named(attachments[idx], name)
    requires forall k :: 0 <= k < idx ==> !Named(attachments[k], name)
    ensures WithoutFirst(attachments, name) == attachments[..idx] + attachments[idx + 1..]
    decreases idx
  {
    if idx > 0 {
      var tail := attachments[1..];
      assert forall k :: 0 <= k < idx - 1 ==> tail[k] == attachments[k + 1];
      WithoutFirstAt(tail, name, idx - 1);
      assert tail[..idx - 1] == attachments[1..idx] && tail[idx..] == attachments[idx + 1..];
      assert attachments[..idx] == [attachments[0]] + attachments[1..idx];
    }
  }

  lemma {:induction false} WithoutFirstNone(attachments: seq<Attachment>, name: string)
    requires forall k :: 0 <= k < |attachments| ==> !Named(attachments[k], name)
    ensures WithoutFirst(attachments, name) == attachments
    ensures Count(attachments, name) == 0
    decreases |attachments|
  {
    if attachments != [] {
      var tail := attachments[1..];
      assert forall k :: 0 <= k < |tail| ==> tail[k] == attachments[k + 1];
      WithoutFirstNone(tail, name);
    }
  }

  /**
   * index.js:62-76: find the first entry named after the upload, splice it out
   * and append the new entry built from the upload response.
   */
  method UpdateAttachments(attachments: seq<Attachment>, uploaded: Object, title: string, filename: string)
    returns (body: seq<Attachment>)
    ensures body == Replaced(attachments, filename, NewEntry(uploaded, title))
  {
    var current := attachments;
    var idx := FindIndex(current, filename);
    if idx >= 0 {
      WithoutFirstAt(attachments, filename, idx);
      current := current[..idx] + current[idx + 1..];
    } else {
      WithoutFirstNone(attachments, filename);
    }
    body := current + [NewEntry(uploaded, title)];
  }

  /** At most one entry goes: the list loses one entry exactly when one is named `name`, and gains the new one. */
  lemma {:induction false} WithoutFirstCount(attachments: seq<Attachment>, name: string)
    ensures |WithoutFirst(attachments, name)| == |attachments| - if Count(attachments, name) > 0 then 1 else 0
    ensures Count(WithoutFirst(attachments, name), name) == Count(attachments, name) - if Count(attachments, name) > 0 then 1 else 0
    decreases |attachments|
  {
    if attachments != [] && !Named(attachments[0], name) {
      WithoutFirstCount(attachments[1..], name);
      assert ([attachments[0]] + WithoutFirst(attachments[1..], name))[1..] == WithoutFirst(attachments[1..], name);
    }
  }

  lemma {:induction false} CountAppend(a: seq<Attachment>, e: Attachment, name: string)
    ensures Count(a + [e], name) == Count(a, name) + if Named(e, name) then 1 else 0
    decreases |a|
  {
    if a == [] {
      assert [e][1..] == [];
    } else {
      assert (a + [e])[1..] == a[1..] + [e];
      CountAppend(a[1..], e, name);
    }
  }

  /** The published list has `n - (match ? 1 : 0) + 1` entries and the new entry is last. */
  lemma ReplacedLength(attachments: seq<Attachment>, name: string, entry: Attachment)
    ensures |Replaced(attachments, name, entry)| == |attachments| - (if Count(attachments, name) > 0 then 1 else 0) + 1
    ensures Replaced(attachments, name, entry)[|Replaced(attachments, name, entry)| - 1] == entry
  {
    WithoutFirstCount(attachments, name);
  }

  /** With at most one entry named `name` before, and a new entry of that name, exactly one is left. */
  lemma ReplacedUnique(attachments: seq<Attachment>, name: string, entry: Attachment)
    requires Count(attachments, name) <= 1 && Named(entry, name)
    ensures Count(Replaced(attachments, name, entry), name) == 1
  {
    WithoutFirstCount(attachments, name);
    CountAppend(WithoutFirst(attachments, name), entry, name);
  }

  lemma LeavesNoneNamed(attachments: seq<Attachment>, name: string)
    requires Count(attachments, name) <= 1
    ensures forall k :: 0 <= k < |WithoutFirst(attachments, name)| ==> !Named(WithoutFirst(attachments, name)[k], name)
  {
    WithoutFirstCount(attachments, name);
    var w := WithoutFirst(attachments, name);
    forall k | 0 <= k < |w| ensures !Named(w[k], name) {
      if Named(w[k], name) {
        CountPositive(w, name, k);
      }
    }
  }

  lemma {:induction false} CountPositive(a: seq<Attachment>, name: string, k: nat)
    requires k < |a| && Named(a[k], name)
    ensures Count(a, name) > 0
    decreases k
  {
    if k > 0 {
      CountPositive(a[1..], name, k - 1);
    }
  }

  /**
   * Publishing the same file twice in a row: the second publication replaces
   * the first one's entry and leaves exactly one entry of that name.
   */
  lemma PublishTwice(attachments: seq<Attachment>, name: string, first: Attachment, second: Attachment)
    requires Count(attachments, name) <= 1 && Named(first, name) && Named(second, name)
    ensures Replaced(Replaced(attachments, name, first), name, second) == Replaced(attachments, name, second)
    ensures Count(Replaced(Replaced(attachments, name, first), name, second), name) == 1
  {
    var w := WithoutFirst(attachments, name);
    LeavesNoneNamed(attachments, name);
    WithoutFirstAt(w + [first], name, |w|);
    assert (w + [first])[..|w|] == w && (w + [first])[|w| + 1..] == [];
    ReplacedUnique(attachments, name, second);
  }

  /** The new entry carries the upload response's name, so it is named after the upload exactly when the response is. */
  lemma NewEntryName(uploaded: Object, title: string, name: string)
    ensures Named(NewEntry(uploaded, title), name) <==> Named(uploaded, name)
  {
  }

  /** The entries not named `name`, in order. */
  function Others(attachments: seq<Attachment>, name: string): seq<Attachment>
  {
    if attachments == [] then []
    else (if Named(attachments[0], name) then [] else [attachments[0]]) + Others(attachments[1..], name)
  }

  /** Removing the first entry named `name` keeps every other-named entry, in the same order. */
  lemma {:induction false} OthersKeepOrder(attachments: seq<Attachment>, name: string)
    ensures Others(WithoutFirst(attachments, name), name) == Others(attachments, name)
    decreases |attachments|
  {
    if attachments != [] && !Named(attachments[0], name) {
      var w := WithoutFirst(attachments[1..], name);
      OthersKeepOrder(attachments[1..], name);
      assert ([attachments[0]] + w)[0] == attachments[0] && ([attachments[0]] + w)[1..] == w;
    } else if attachments != [] {
      assert Others(attachments, name) == [] + Others(attachments[1..], name);
    }
  }

  /** Appending an entry named `name` leaves the other-named entries as they were. */
  lemma {:induction false} OthersAppendNamed(a: seq<Attachment>, e: Attachment, name: string)
    requires Named(e, name)
    ensures Others(a + [e], name) == Others(a, name)
    decreases |a|
  {
    if a == [] {
      assert [e][1..] == [];
      assert Others([e], name) == [] + Others([], name);
    } else {
      assert (a + [e])[0] == a[0] && (a + [e])[1..] == a[1..] + [e];
      OthersAppendNamed(a[1..], e, name);
    }
  }
}
