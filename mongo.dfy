/** The MongoDB documents the core builds but never interprets: aggregation
    stages of a read pipeline and the write requests of a bulk write. They
    are shapes only; running them belongs to the server. */
module Mongo {
  import opened Values
  import opened Expressions

  /** `{"$cond": {"if": {"$eq": [ifPath, equals]}, "then": thenValue, "else": elsePath}}` */
  datatype Cond = Cond(ifPath: string, equals: Value, thenValue: Value, elsePath: string)

  /** One aggregation stage. */
  datatype Stage =
    | Lookup(from: string, localField: string, foreignField: string, pipeline: seq<Stage>, asField: string)
    | AddFields(field: string, cond: Cond)
    | Unwind(path: string, preserveNullAndEmptyArrays: bool)
    | Set(field: string, source: string)
    | Match(filter: Query)
    | SortBy(sort: Sort)
    | Skip(n: int)
    | Limit(n: int)

  /** A write request (pymongo's `ReplaceOne` and `DeleteOne`). */
  datatype WriteOp =
    | ReplaceOne(filter: map<string, Value>, replacement: map<string, Value>, collation: Option<string>, upsert: bool)
    | DeleteOne(filter: map<string, Value>, collation: Option<string>)
}
