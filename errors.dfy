/** The errors the model distinguishes. Go's errors are opaque values; each
    variant here names the place an error comes from. */
module Errors {

  datatype Error =
    /** the schema database cannot be reached (database/database_error.go) */
    | ConnectionError(message: string)
    /** the column query reached the database but failed */
    | QueryError(message: string)
    /** the GTID event's source id is not a UUID */
    | InvalidUuid(sid: seq<bv8>)
    /** a message consumer or collector refused a message */
    | ConsumerError(message: string)
    /** a binlog file could not be parsed */
    | ParseError(file: string)
    /** an index file is missing or cannot be written */
    | FileError(message: string)
    /** a Go panic: an invariant of the input was violated */
    | Panic(message: string)
}
