/**
 * The repository contents the application reads and writes through the
 * hosting service's REST API (my_blackhole_V10.py lines 70-112), seen as a
 * map from path to the stored content and its version token ("sha").
 */
module Store {
  import opened Wrappers

  datatype Blob<T> = Blob(content: T, sha: nat)

  class Store<T> {
    var objects: map<string, Blob<T>>
    /** Every token handed out so far is below this one. */
    var nextSha: nat

    ghost predicate Valid()
      reads this
    {
      forall p :: p in objects ==> objects[p].sha < nextSha
    }

    constructor ()
      ensures Valid() && objects == map[]
    {
      objects, nextSha := map[], 0;
    }

    /** `get_file_sha_if_exists`: the stored object, or `None` for a missing path. */
    method Get(path: string) returns (r: Option<Blob<T>>)
      ensures r.Some? <==> path in objects
      ensures r.Some? ==> r.value == objects[path]
    {
      r := if path in objects then Some(objects[path]) else None;
    }

    /** `put_file`: stores `content` at `path` under a token no object had before. */
    method Put(path: string, content: T) returns (sha: nat)
      requires Valid()
      modifies this
      ensures Valid()
      ensures objects == old(objects)[path := Blob(content, sha)]
      ensures forall p :: p in old(objects) ==> old(objects)[p].sha != sha
    {
      sha := nextSha;
      objects := objects[path := Blob(content, sha)];
      nextSha := nextSha + 1;
    }

    /** `delete_file`: removes the object at `path`; `found` is false for a missing path. */
    method Delete(path: string) returns (found: bool)
      requires Valid()
      modifies this
      ensures Valid()
      ensures found == (path in old(objects))
      ensures objects == old(objects) - {path}
      ensures nextSha == old(nextSha)
    {
      found := path in objects;
      if found {
        objects := objects - {path};
      }
    }
  }
}
