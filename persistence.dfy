/** The saved document and how it is read back
    (SATpwn.py `_save_memory`, `_load_memory`). The file format is left
    abstract: a document is what the JSON reader produced, classified into
    the shapes the loader tells apart. */
module Persistence {
  import opened Common
  import opened Records

  /** The `current_mode` entry of the metadata: absent, text, or a value
      that is not text (which can never be one of the modes). */
  datatype ModeField = ModeAbsent | ModeText(text: string) | ModeNotText

  /** The `last_saved` entry: absent (read as 0), a number, or anything else
      (null, text, ...), on which the loader's age computation fails. */
  datatype StampField = StampAbsent | StampNumber(t: int) | StampNotNumber

  /** The metadata block. `version` is written but never read back. */
  datatype Metadata = Metadata(
    currentMode: ModeField,
    lastSaved: StampField,
    version: Option<string>,
    stationaryStart: Option<int>)

  /** The `plugin_metadata` entry: a table, or a value of another type on
      which the loader's first lookup fails. */
  datatype MetaBlock = MetaTable(fields: Metadata) | MetaNotTable

  /** A stored memory file as the loader sees it: no file; a file that
      cannot be read or parsed; a document without `plugin_metadata`
      (the legacy shape, the whole document being the memory); or a
      document with `plugin_metadata` and possibly `ap_data`. */
  datatype Document =
    | NoFile
    | Unreadable
    | Legacy(aps: Memory)
    | Tagged(meta: MetaBlock, apData: Option<Memory>)

  /** The plugin state that loading restores. */
  datatype Restored = Restored(memory: Memory, mode: string, stationaryStart: Option<int>)

  /** The document a save writes at time `now`. */
  function Encode(memory: Memory, mode: string, stationaryStart: Option<int>, now: int): (d: Document)
    ensures mode in MODES ==> forall prior :: Decode(d, prior) == Restored(memory, mode, stationaryStart)
  {
    Tagged(MetaTable(Metadata(ModeText(mode), StampNumber(now), Some(VERSION), stationaryStart)), Some(memory))
  }

  /** The mode a saved mode entry restores: the saved mode if it is one of
      the five, the default otherwise. */
  function RestoreMode(f: ModeField): (r: string)
    ensures r in MODES
    ensures f.ModeText? && f.text in MODES ==> r == f.text
    ensures !(f.ModeText? && f.text in MODES) ==> r == DEFAULT_MODE
  {
    if f.ModeText? && f.text in MODES then f.text else DEFAULT_MODE
  }

  /** The loader fails on `doc`: the file cannot be read or parsed, the
      metadata is not a table, or `last_saved` is not a number. */
  predicate DecodeFails(doc: Document)
  {
    || doc.Unreadable?
    || (doc.Tagged? && doc.meta.MetaNotTable?)
    || (doc.Tagged? && doc.meta.MetaTable? && doc.meta.fields.lastSaved.StampNotNumber?)
  }

  /** The state after loading `doc` over the state `prior`.
      - no file: nothing changes;
      - unreadable, or metadata that is not a table: empty memory and the
        default mode, the timer as it was;
      - legacy: the document is the memory, default mode, timer as it was;
      - tagged: `ap_data` (or empty) and the restored mode, and the saved
        timer; if `last_saved` is not a number the failure comes after the
        timer was restored, so memory and mode fall back to the defaults
        but the restored timer stays. */
  function Decode(doc: Document, prior: Restored): (r: Restored)
    ensures doc != NoFile ==> r.mode in MODES
    ensures doc == NoFile ==> r == prior
    ensures doc.Unreadable? ==> r == Restored(map[], DEFAULT_MODE, prior.stationaryStart)
    ensures doc.Legacy? ==> r == Restored(doc.aps, DEFAULT_MODE, prior.stationaryStart)
    ensures DecodeFails(doc) ==> r.memory == map[] && r.mode == DEFAULT_MODE
    ensures DecodeFails(doc) ==>
              r.stationaryStart == (if doc.Tagged? && doc.meta.MetaTable? then doc.meta.fields.stationaryStart
                                    else prior.stationaryStart)
  {
    match doc
    case NoFile => prior
    case Unreadable => Restored(map[], DEFAULT_MODE, prior.stationaryStart)
    case Legacy(aps) => Restored(aps, DEFAULT_MODE, prior.stationaryStart)
    case Tagged(MetaNotTable, _) => Restored(map[], DEFAULT_MODE, prior.stationaryStart)
    case Tagged(MetaTable(md), apData) =>
      if md.lastSaved.StampNotNumber? then Restored(map[], DEFAULT_MODE, md.stationaryStart)
      else
        Restored(if apData.Some? then apData.value else map[], RestoreMode(md.currentMode), md.stationaryStart)
  }

  /** A saved mode outside the five is replaced by the default, and the
      rest of the document is still restored. */
  lemma InvalidModeRejected(md: Metadata, apData: Memory, prior: Restored)
    requires !(md.currentMode.ModeText? && md.currentMode.text in MODES)
    requires !md.lastSaved.StampNotNumber?
    ensures Decode(Tagged(MetaTable(md), Some(apData)), prior) == Restored(apData, DEFAULT_MODE, md.stationaryStart)
  {
  }

  /** Whatever the document, a state whose mode is one of the five keeps a
      mode that is one of the five. */
  lemma DecodeKeepsModeValid(doc: Document, prior: Restored)
    requires prior.mode in MODES
    ensures Decode(doc, prior).mode in MODES
  {
  }
}
