/** The copy-on-write message wrapper of the plugin API
    (public/service/message.go). A wrapper holds a message part that it may
    share with its creator, together with a flag saying whether it has taken a
    private copy yet; every mutator takes that copy first, so a shared part is
    never changed through the wrapper.

    The part itself (lib/message) is not part of this model: the class `Part`
    below is an assumed stand-in holding bytes, an optional structured document
    and a metadata map, with a `Copy` that builds a fresh part with equal
    contents. Contexts are left out. */
module ServiceMessage {
  import opened Types

  /** A structured (JSON) document, kept abstract: it is known only by the
      bytes it serializes to. */
  datatype Doc = Doc(serialized: seq<Byte>)

  /** Everything a part holds, as a value. */
  datatype PartValue = PartValue(data: seq<Byte>, doc: Option<Doc>, meta: map<string, string>)

  /** A message part: a body (raw bytes, or a structured document together
      with its serialization) and string metadata. */
  class Part {
    var data: seq<Byte>
    var doc: Option<Doc>
    var meta: map<string, string>

    function Value(): PartValue
      reads this
    {
      PartValue(data, doc, meta)
    }

    /** A part with the given body and no metadata. */
    constructor (data: seq<Byte>)
      ensures Value() == PartValue(data, None, map[])
    {
      this.data := data;
      doc := None;
      meta := map[];
    }

    /** A fresh part with the same contents. */
    method Copy() returns (p: Part)
      ensures fresh(p) && p.Value() == Value()
    {
      p := new Part(data);
      p.doc, p.meta := doc, meta;
    }

    /** Replaces the body with raw bytes. */
    method Set(b: seq<Byte>)
      modifies this
      ensures Value() == old(Value()).(data := b, doc := None)
    {
      data, doc := b, None;
    }

    /** Replaces the body with a structured document. */
    method SetJSON(d: Doc)
      modifies this
      ensures Value() == old(Value()).(data := d.serialized, doc := Some(d))
    {
      data, doc := d.serialized, Some(d);
    }

    /** Sets one metadata value. */
    method MetaSet(key: string, value: string)
      modifies this
      ensures Value() == old(Value()).(meta := old(meta)[key := value])
    {
      meta := meta[key := value];
    }

    /** Removes one metadata key. */
    method MetaDelete(key: string)
      modifies this
      ensures Value() == old(Value()).(meta := old(meta) - {key})
    {
      meta := meta - {key};
    }
  }

  /** The metadata a walk leaves behind when each visited pair is set in
      order on an empty map: a later pair overrides an earlier one. */
  function MetaOf(walk: seq<(string, string)>): (r: map<string, string>)
    ensures r.Keys == set i | 0 <= i < |walk| :: walk[i].0
  {
    if walk == [] then map[] else MetaOf(walk[..|walk| - 1])[walk[|walk| - 1].0 := walk[|walk| - 1].1]
  }

  /** No key occurs twice in a walk. */
  predicate DistinctKeys(walk: seq<(string, string)>)
  {
    forall i, j :: 0 <= i < j < |walk| ==> walk[i].0 != walk[j].0
  }

  /** When keys are distinct, every visited pair is copied as it was visited. */
  lemma {:induction false} MetaOfHoldsEveryPair(walk: seq<(string, string)>)
    requires DistinctKeys(walk)
    ensures forall i :: 0 <= i < |walk| ==> walk[i].0 in MetaOf(walk) && MetaOf(walk)[walk[i].0] == walk[i].1
  {
    if walk != [] {
      var init := walk[..|walk| - 1];
      assert DistinctKeys(init) by {
        forall i, j | 0 <= i < j < |init| ensures init[i].0 != init[j].0 {
          assert init[i] == walk[i] && init[j] == walk[j];
        }
      }
      MetaOfHoldsEveryPair(init);
      forall i | 0 <= i < |walk| - 1
        ensures walk[i].0 in MetaOf(walk) && MetaOf(walk)[walk[i].0] == walk[i].1
      {
        assert init[i] == walk[i];
      }
    }
  }

  /** The wrapper: a part that may be shared with whoever created the wrapper,
      and whether the wrapper has already taken its own copy. */
  class AirGapMessage {
    var m: Part
    var partCopied: bool

    /** newAirGapMessage: wraps the part as it is, without copying it. */
    constructor (m: Part)
      ensures this.m == m && !partCopied
    {
      this.m := m;
      partCopied := false;
    }

    /** A wrapper around a part that is already its own. */
    constructor Owning(m: Part)
      ensures this.m == m && partCopied
    {
      this.m := m;
      partCopied := true;
    }

    /** Takes a private copy of the part unless one was taken before: the first
        call replaces the part by a fresh copy with the same contents, later
        calls change nothing. */
    method EnsureCopied()
      modifies this
      ensures partCopied
      ensures old(partCopied) ==> m == old(m)
      ensures !old(partCopied) ==> fresh(m)
      ensures m.Value() == old(m.Value())
    {
      if !partCopied {
        m := m.Copy();
        partCopied := true;
      }
    }

    /** The body as bytes; ok exactly when it is not empty. */
    function Bytes(): (r: (seq<Byte>, bool))
      reads this, m
      ensures r.0 == m.data
      ensures r.1 <==> |m.data| > 0
    {
      (m.data, |m.data| > 0)
    }

    /** The body as a structured document: ok exactly when the body was last
        set as one (parsing raw bytes is not modelled). */
    function Structured(): (r: Option<Doc>)
      reads this, m
      ensures r == m.doc
    {
      m.doc
    }

    /** The metadata value of `key`, empty when absent; ok exactly when the
        value is not empty, so a key set to "" reads as absent. */
    function MetaGet(key: string): (r: (string, bool))
      reads this, m
      ensures r.1 <==> key in m.meta && m.meta[key] != ""
      ensures r.0 == (if key in m.meta then m.meta[key] else "")
    {
      var v := if key in m.meta then m.meta[key] else "";
      (v, |v| > 0)
    }

    // Each mutator works on the wrapper's own copy: a part still shared is
    // copied first and keeps its contents.

    /** Replaces the body with raw bytes. */
    method SetBytes(b: seq<Byte>)
      modifies this, if partCopied then {m} else {}
      ensures partCopied && (old(partCopied) ==> m == old(m)) && (!old(partCopied) ==> fresh(m))
      ensures !old(partCopied) ==> old(m).Value() == old(m.Value())
      ensures m.Value() == old(m.Value()).(data := b, doc := None)
    {
      EnsureCopied();
      m.Set(b);
    }

    /** Replaces the body with a structured document. */
    method SetStructured(d: Doc)
      modifies this, if partCopied then {m} else {}
      ensures partCopied && (old(partCopied) ==> m == old(m)) && (!old(partCopied) ==> fresh(m))
      ensures !old(partCopied) ==> old(m).Value() == old(m.Value())
      ensures m.Value() == old(m.Value()).(data := d.serialized, doc := Some(d))
    {
      EnsureCopied();
      m.SetJSON(d);
    }

    /** Sets a metadata value. */
    method MetaSet(key: string, value: string)
      modifies this, if partCopied then {m} else {}
      ensures partCopied && (old(partCopied) ==> m == old(m)) && (!old(partCopied) ==> fresh(m))
      ensures !old(partCopied) ==> old(m).Value() == old(m.Value())
      ensures m.Value() == old(m.Value()).(meta := old(m.meta)[key := value])
    {
      EnsureCopied();
      m.MetaSet(key, value);
    }

    /** Removes a metadata key. */
    method MetaDelete(key: string)
      modifies this, if partCopied then {m} else {}
      ensures partCopied && (old(partCopied) ==> m == old(m)) && (!old(partCopied) ==> fresh(m))
      ensures !old(partCopied) ==> old(m).Value() == old(m.Value())
      ensures m.Value() == old(m.Value()).(meta := old(m.meta) - {key})
    {
      EnsureCopied();
      m.MetaDelete(key);
    }

    /** Calls `fn` on metadata entries, one key at a time in the map's own
        (unspecified) order, and stops right after the first call that answers
        false. Returns the pairs visited, in order. */
    method MetaWalk(fn: (string, string) -> bool) returns (visited: seq<(string, string)>)
      ensures DistinctKeys(visited)
      ensures forall i :: 0 <= i < |visited| ==> visited[i].0 in m.meta && m.meta[visited[i].0] == visited[i].1
      ensures forall i :: 0 <= i < |visited| - 1 ==> fn(visited[i].0, visited[i].1)
      ensures (exists i :: 0 <= i < |visited| && !fn(visited[i].0, visited[i].1))
              || |visited| == |m.meta.Keys|
    {
      var keys := m.meta.Keys;
      visited := [];
      while keys != {}
        invariant keys <= m.meta.Keys
        invariant |visited| + |keys| == |m.meta.Keys|
        invariant DistinctKeys(visited)
        invariant forall i :: 0 <= i < |visited| ==>
          && visited[i].0 in m.meta && visited[i].0 !in keys && m.meta[visited[i].0] == visited[i].1
          && fn(visited[i].0, visited[i].1)
        decreases keys
      {
        var k :| k in keys;
        visited := visited + [(k, m.meta[k])];
        keys := keys - {k};
        if !fn(k, m.meta[k]) {
          assert visited[|visited| - 1] == (k, m.meta[k]);
          return;
        }
      }
    }
  }

  /** A message of an implementation other than the wrapper, as far as copying
      it can see: its structured body when it has one, its bytes, and the pairs
      its metadata walk visits, in order. */
  datatype ForeignMessage = ForeignMessage(structured: Option<Doc>, bytes: seq<Byte>, walk: seq<(string, string)>)

  datatype Message = AirGap(a: AirGapMessage) | Foreign(f: ForeignMessage)

  /** A copy of a message that can be mutated without touching the original.
      A wrapper is copied by copying its part; any other message is rebuilt
      from its structured body (or else its bytes) and every pair its
      metadata walk visits. Either way the result owns its fresh part. */
  method CopyMessage(msg: Message) returns (r: AirGapMessage)
    ensures fresh(r) && fresh(r.m) && r.partCopied
    ensures msg.AirGap? ==> r.m.Value() == msg.a.m.Value()
    ensures msg.Foreign? ==>
      var f := msg.f;
      r.m.Value() == if f.structured.Some? then PartValue(f.structured.value.serialized, f.structured, MetaOf(f.walk))
                     else PartValue(f.bytes, None, MetaOf(f.walk))
  {
    if msg.AirGap? {
      var part := msg.a.m.Copy();
      r := new AirGapMessage.Owning(part);
      return;
    }
    var part := new Part([]);
    if msg.f.structured.Some? {
      part.SetJSON(msg.f.structured.value);
    } else {
      part.Set(msg.f.bytes);
    }
    var walk := msg.f.walk;
    var i := 0;
    while i < |walk|
      invariant 0 <= i <= |walk|
      invariant part.meta == MetaOf(walk[..i])
      invariant part.data == (if msg.f.structured.Some? then msg.f.structured.value.serialized else msg.f.bytes)
      invariant part.doc == msg.f.structured
    {
      assert walk[..i + 1][..i] == walk[..i];
      part.MetaSet(walk[i].0, walk[i].1);
      i := i + 1;
    }
    assert walk[..|walk|] == walk;
    r := new AirGapMessage.Owning(part);
  }

  /** Copying a wrapper and then mutating either side leaves the other side's
      part as it was. */
  method CopyIsolation(a: AirGapMessage, b: seq<Byte>, key: string, value: string)
    modifies a, if a.partCopied then {a.m} else {}
    ensures a.m.Value() == old(a.m.Value()).(meta := old(a.m.meta)[key := value])
  {
    var c := CopyMessage(AirGap(a));
    c.SetBytes(b);
    assert a.m.Value() == old(a.m.Value());
    a.MetaSet(key, value);
    assert c.m.Value() == old(a.m.Value()).(data := b, doc := None);
  }
}
