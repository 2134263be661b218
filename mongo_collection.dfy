/** A MongoDB collection as the two document mirrors use it: dropped and
    recreated with a `$jsonSchema` validator, then filled by `insert_one`.
    A document the validator refuses raises a write error and is not
    stored. */
module MongoCollection {

  class Collection<D> {
    var docs: seq<D>
    var validator: D -> bool

    constructor (docs0: seq<D>, validator0: D -> bool)
      ensures docs == docs0 && validator == validator0
    {
      docs := docs0;
      validator := validator0;
    }

    /** `drop_collection` then `create_collection(validator=...)`. */
    method Recreate(v: D -> bool)
      modifies this
      ensures docs == [] && validator == v
    {
      docs := [];
      validator := v;
    }

    /** `insert_one`: `ok` is false when the write error is raised. */
    method InsertOne(d: D) returns (ok: bool)
      modifies this
      ensures ok == old(validator)(d)
      ensures validator == old(validator)
      ensures docs == if ok then old(docs) + [d] else old(docs)
    {
      ok := validator(d);
      if ok {
        docs := docs + [d];
      }
    }
  }
}
