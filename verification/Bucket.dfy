/** The bucket as the S3 client shows it: one atomic request per call. */
module Bucket {
  import opened Common

  /** The two metadata keys the filesystem uses; `target` is the decoded symlink
      target, absent for anything that is not a symlink. */
  datatype Meta = Meta(mode: Option<string>, target: Option<string>)

  datatype Object = Object(body: Body, meta: Meta)

  datatype Head = Head(size: nat, etag: string, meta: Meta)

  type Store = map<string, Object>

  /** Outcome of a request or of an operation built from requests. */
  datatype Reply<+T> = Ok(value: T) | NotFound | Failed

  function HeadOf(o: Object): Head {
    Head(|o.body|, ETagOf(o.body), o.meta)
  }

  ghost predicate DirExists(s: Store, prefix: string) {
    exists k :: k in s && prefix <= k
  }

  /** A ListObjectsV2 answer gathered over all pages: every key once, any order. */
  ghost predicate IsListing(s: Store, prefix: string, keys: seq<string>) {
    && (forall k :: k in keys <==> k in s && prefix <= k)
    && (forall i, j :: 0 <= i < j < |keys| ==> keys[i] != keys[j])
  }

  /** What a GET with the range first-last (last included, open when absent) is
      answered with (section 14.1.2 of RFC 9110); None is an unsatisfiable range. */
  function RangeOf(body: Body, first: nat, last: Option<nat>): Option<Body> {
    if first >= |body| || (last.Some? && last.value < first) then None
    else if last.Some? && last.value < |body| then Some(body[first..last.value + 1])
    else Some(body[first..])
  }

  /** The bytes from the first to the last, those that there are, and none at all is no
      answer. */
  lemma RangeIs(body: Body, first: nat, last: nat, i: nat)
    requires first <= last
    ensures RangeOf(body, first, Some(last)).Some? <==> first < |body|
    ensures first < |body| ==>
              var r := RangeOf(body, first, Some(last)).value;
              && |r| == (if last < |body| then last + 1 else |body|) - first
              && (i < |r| ==> r[i] == body[first + i])
    ensures RangeOf(body, first, None) == if first < |body| then Some(body[first..]) else None
  {
  }

  /** A request that fails leaves the bucket alone; `failures` counts them. */
  class Client {
    var objects: Store
    ghost var failures: nat

    twostate predicate Counted(failed: bool)
      reads this
    {
      failures == old(failures) + if failed then 1 else 0
    }

    method HeadObject(key: string) returns (r: Reply<Head>)
      modifies this`failures
      ensures Counted(r.Failed?)
      ensures r.Failed? || r == if key in objects then Ok(HeadOf(objects[key])) else NotFound
    {
      if * {
        failures := failures + 1;
        return Failed;
      }
      r := if key in objects then Ok(HeadOf(objects[key])) else NotFound;
    }

    /** The body is read to its end, or the request counts as failed. */
    method GetObject(key: string) returns (r: Reply<Object>)
      modifies this`failures
      ensures Counted(r.Failed?)
      ensures r.Failed? || r == if key in objects then Ok(objects[key]) else NotFound
    {
      if * {
        failures := failures + 1;
        return Failed;
      }
      r := if key in objects then Ok(objects[key]) else NotFound;
    }

    /** What the body of a ranged GET will deliver, unless it breaks off. */
    method GetRange(key: string, first: nat, last: Option<nat>) returns (r: Reply<Body>)
      modifies this`failures
      ensures Counted(r.Failed?)
      ensures r.Ok? ==> key in objects && RangeOf(objects[key].body, first, last) == Some(r.value)
      ensures r.NotFound? ==> key !in objects
    {
      if * {
        failures := failures + 1;
        return Failed;
      }
      if key !in objects {
        return NotFound;
      }
      var range := RangeOf(objects[key].body, first, last);
      if range.None? {
        failures := failures + 1;
        return Failed;
      }
      return Ok(range.value);
    }

    method PutObject(key: string, body: Body, meta: Meta) returns (r: Reply<string>)
      modifies this
      ensures Counted(r.Failed?)
      ensures r.Failed? || r == Ok(ETagOf(body))
      ensures objects == if r.Ok? then old(objects)[key := Object(body, meta)] else old(objects)
    {
      if * {
        failures := failures + 1;
        return Failed;
      }
      objects := objects[key := Object(body, meta)];
      return Ok(ETagOf(body));
    }

    /** A PUT that announces its length, and fails unless the body has it. */
    method PutAnnounced(key: string, body: Body, size: nat, meta: Meta) returns (r: Reply<string>)
      modifies this
      ensures Counted(r.Failed?)
      ensures r.Failed? || (r == Ok(ETagOf(body)) && size == |body|)
      ensures objects == if r.Ok? then old(objects)[key := Object(body, meta)] else old(objects)
    {
      if size != |body| {
        failures := failures + 1;
        return Failed;
      }
      r := PutObject(key, body, meta);
    }

    method DeleteObject(key: string) returns (ok: bool)
      modifies this
      ensures Counted(!ok)
      ensures objects == if ok then old(objects) - {key} else old(objects)
    {
      ok := *;
      if ok {
        objects := objects - {key};
      } else {
        failures := failures + 1;
      }
    }

    method CopyObject(src: string, dst: string) returns (r: Reply<()>)
      modifies this
      ensures Counted(r.Failed?)
      ensures r.Ok? ==> src in old(objects) && objects == old(objects)[dst := old(objects)[src]]
      ensures !r.Ok? ==> objects == old(objects)
      ensures r.NotFound? ==> src !in old(objects)
    {
      if * {
        failures := failures + 1;
        return Failed;
      }
      if src !in objects {
        return NotFound;
      }
      objects := objects[dst := objects[src]];
      return Ok(());
    }

    /** ListObjectsV2 with MaxKeys 1. */
    method AnyKey(prefix: string) returns (r: Reply<bool>)
      modifies this`failures
      ensures Counted(r.Failed?)
      ensures !r.NotFound?
      ensures r.Ok? ==> (r.value <==> DirExists(objects, prefix))
    {
      if * {
        failures := failures + 1;
        return Failed;
      }
      r := Ok(exists k :: k in objects && prefix <= k);
    }

    method ListKeys(prefix: string) returns (r: Reply<seq<string>>)
      modifies this`failures
      ensures Counted(r.Failed?)
      ensures !r.NotFound?
      ensures r.Ok? ==> IsListing(objects, prefix, r.value)
    {
      if * {
        failures := failures + 1;
        return Failed;
      }
      var keys, todo := [], set k | k in objects && prefix <= k;
      while todo != {}
        invariant todo <= objects.Keys
        invariant forall k :: k in objects && prefix <= k <==> k in todo || k in keys
        invariant forall k :: k in keys ==> k !in todo
        invariant forall i, j :: 0 <= i < j < |keys| ==> keys[i] != keys[j]
        decreases todo
      {
        var k :| k in todo;
        keys, todo := keys + [k], todo - {k};
      }
      return Ok(keys);
    }
  }
}
