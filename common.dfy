/** Values shared by the opinion table, the annotator sessions and the request handlers. */
module Common {

  datatype Option<+T> = None | Some(value: T)

  /** The exceptions the server code raises, as values. */
  datatype Error =
    | OverflowError        // next_data: no opinion left for this annotator
    | IndexError           // `.iloc[0]` on a selection with no row
    | KeyError(key: string) // a segment type outside the three known ones
    | ValueError           // load_user: unknown token or unreadable record
    | TypeError            // arithmetic on a missing start time; `__init__` returning a value

  datatype Result<+T> = Ok(value: T) | Err(error: Error)

  type OpinionId = int

  /** The four columns of an opinion handed to a client. */
  datatype Opinion = Opinion(opinionId: OpinionId, text: string, authorName: string, len: int)

  /** A JSON scalar stored in a journal record. */
  datatype Value = Str(s: string) | Num(x: real) | Null

  /** One JSON object of a journal: the opinion it concerns and its other fields. */
  datatype Record = Record(opinionId: OpinionId, fields: map<string, Value>)

  /** One line of a `.jsonl` file as the readers see it after `strip()` and `json.loads`. */
  datatype Line = Blank | Garbled | Entry(rec: Record)
}
