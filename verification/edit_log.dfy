/** The MagicString buffer, modelled as the ordered log of the edits queued
    against it. Offsets are into the original text; replaying the log into
    final text and a source map is not modelled. */
module EditLog {

  datatype Edit =
    | Remove(start: int, end: int)
    | Move(start: int, end: int, to: int)
    | Overwrite(start: int, end: int, content: string)
    | Append(content: string)
    | PrependRight(index: int, content: string)
}
