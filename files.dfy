/** The file system as the scripts see it: a map from path to the file's bytes. */
module Files {
  import opened Text
  import opened Wrappers

  class FileStore {
    var files: map<string, seq<byte>>

    constructor (init: map<string, seq<byte>>)
      ensures files == init
    {
      files := init;
    }

    /** `path.read_bytes()`: None when the file does not exist. */
    method Read(path: string) returns (r: Option<seq<byte>>)
      ensures r == if path in files then Some(files[path]) else None
    {
      if path in files {
        r := Some(files[path]);
      } else {
        r := None;
      }
    }

    /** `path.write_bytes(data)`: creates or replaces the file. */
    method Write(path: string, data: seq<byte>)
      modifies this
      ensures files == old(files)[path := data]
    {
      files := files[path := data];
    }
  }

  /** The files a run of writes leaves, the `k`-th write putting `body(u)` at
      `name(k, u)` for the `k`-th URL `u`, a later write winning. */
  function WriteAll(name: (nat, string) -> string, body: string -> seq<byte>, urls: seq<string>)
    : map<string, seq<byte>>
    decreases |urls|
  {
    if |urls| == 0 then map[]
    else
      var last := |urls| - 1;
      WriteAll(name, body, urls[..last])[name(last, urls[last]) := body(urls[last])]
  }

  /** When the names are pairwise different, each write's body is at its own name and
      nothing else is written. */
  lemma {:induction false} WriteAllPaths(name: (nat, string) -> string, body: string -> seq<byte>, urls: seq<string>)
    requires forall i, j :: 0 <= i < j < |urls| ==> name(i, urls[i]) != name(j, urls[j])
    ensures forall k :: 0 <= k < |urls| ==>
              name(k, urls[k]) in WriteAll(name, body, urls)
              && WriteAll(name, body, urls)[name(k, urls[k])] == body(urls[k])
    ensures forall path :: path in WriteAll(name, body, urls) ==>
              exists k :: 0 <= k < |urls| && path == name(k, urls[k])
    decreases |urls|
  {
    if |urls| > 0 {
      var last := |urls| - 1;
      var init := urls[..last];
      assert forall k :: 0 <= k < last ==> init[k] == urls[k];
      WriteAllPaths(name, body, init);
      forall path | path in WriteAll(name, body, urls)
        ensures exists k :: 0 <= k < |urls| && path == name(k, urls[k])
      {
        if path != name(last, urls[last]) {
          var k :| 0 <= k < |init| && path == name(k, init[k]);
          assert path == name(k, urls[k]);
        }
      }
    }
  }

  /** One more write, after the others, lands on top of them. */
  lemma WriteAllSnoc(name: (nat, string) -> string, body: string -> seq<byte>, urls: seq<string>, u: string)
    ensures WriteAll(name, body, urls + [u]) == WriteAll(name, body, urls)[name(|urls|, u) := body(u)]
  {
    assert (urls + [u])[..|urls|] == urls;
  }

  /** Writing over a merge is writing into the right-hand side. */
  lemma MergeUpdate(base: map<string, seq<byte>>, w: map<string, seq<byte>>, path: string, data: seq<byte>)
    ensures (base + w)[path := data] == base + w[path := data]
  {
  }
}
