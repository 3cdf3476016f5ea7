/**
 * subscriber/sse/subscriber_sse.go: a subscriber that writes each event as a
 * server-sent-event frame (an `event:` line and a `data:` line, as in section
 * 9.2 of the WHATWG HTML Living Standard) to a response writer and flushes it.
 */
module SseSubscriber {
  import opened Wrappers
  import opened Text
  import Goqa
  import opened Events
  import opened SubscriberBase

  /** The response body written so far. */
  class Writer {
    var text: string

    constructor ()
      ensures text == ""
    {
      text := "";
    }

    method Write(s: string)
      modifies this
      ensures text == old(text) + s
    {
      text := text + s;
    }
  }

  /** The flusher, known by how often it has been asked to flush. */
  class Flusher {
    var count: nat

    constructor ()
      ensures count == 0
    {
      count := 0;
    }
  }

  /** A field value with every newline turned into `_`. */
  function Field(s: string): (t: string)
    ensures '\n' !in t
  {
    ReplaceAllRemoves(s, '\n', "_");
    ReplaceAll(s, '\n', "_")
  }

  function EventLine(name: string): string {
    "event: " + Field(name) + "\n"
  }

  function DataLine(text: string): string {
    "data: " + Field(text) + "\n\n"
  }

  /** The frame one notification writes for an event with this name and text. */
  function Frame(name: string, text: string): (f: string)
    ensures "event: " <= f && |f| >= 16 && f[|f| - 2..] == "\n\n"
  {
    EventLine(name) + DataLine(text)
  }

  /** The second rewrite, of newlines into continued `data:` lines, never finds a newline left to rewrite. */
  lemma DataRewriteIsNoop(text: string)
    ensures ReplaceAll(Field(text), '\n', "\ndata: ") == Field(text)
  {
    ReplaceAllWithout(Field(text), '\n', "\ndata: ");
  }

  /**
   * A frame reads back as one `event:` line holding the name and one
   * `data:` line holding the text, then the blank line that ends the event:
   * neither field holds a newline of its own.
   */
  lemma FrameFields(name: string, text: string)
    ensures var f, ev, data := Frame(name, text), Field(name), Field(text);
            && |f| == 16 + |ev| + |data|
            && f[..7] == "event: " && f[7..7 + |ev|] == ev && f[7 + |ev|] == '\n'
            && f[8 + |ev|..14 + |ev|] == "data: " && f[14 + |ev|..14 + |ev| + |data|] == data
            && f[14 + |ev| + |data|..] == "\n\n"
            && '\n' !in ev && '\n' !in data
  {
    var ev, data := Field(name), Field(text);
    var f := Frame(name, text);
    assert f == "event: " + ev + "\n" + "data: " + data + "\n\n";
  }

  /**
   * Newlines in a name become underscores, in the `event:` line and in the
   * text alike (with the text of the test events, the name then `::data`).
   */
  lemma NewlineInName(a: string, b: string)
    requires '\n' !in a && '\n' !in b
    ensures Frame(a + "\n" + b, a + "\n" + b + "::data")
         == "event: " + a + "_" + b + "\n" + "data: " + a + "_" + b + "::data" + "\n\n"
  {
    FieldAroundNewline(a, b);
    assert a + "\n" + b + "::data" == a + "\n" + (b + "::data");
    FieldAroundNewline(a, b + "::data");
  }

  lemma FieldAroundNewline(a: string, b: string)
    requires '\n' !in a && '\n' !in b
    ensures Field(a + "\n" + b) == a + "_" + b
  {
    ReplaceAllAppend(a + "\n", b, '\n', "_");
    ReplaceAllAppend(a, "\n", '\n', "_");
    ReplaceAllWithout(a, '\n', "_");
    ReplaceAllWithout(b, '\n', "_");
  }

  /** An empty name still gives an `event:` line, with nothing after the colon and space. */
  lemma EmptyNameKeepsEventLine(text: string)
    ensures Frame("", text)[..8] == "event: \n"
  {
  }

  /** The two formatted writes of `Notify`, for an event with this name and text, then its flush. */
  method WriteFrame(name: string, text: string, writer: Writer, flusher: Flusher)
    modifies writer, flusher
    ensures writer.text == old(writer.text) + Frame(name, text)
    ensures flusher.count == old(flusher.count) + 1
  {
    var ev := ReplaceAll(name, '\n', "_");
    var data := ReplaceAll(text, '\n', "_");
    writer.Write("event: " + ev + "\n");
    DataRewriteIsNoop(text);
    writer.Write("data: " + ReplaceAll(data, '\n', "\ndata: ") + "\n\n");
    flusher.count := flusher.count + 1;
  }

  class Sse {
    const ident: Identifiable
    /** Whether the context is set; `New` never sets it. */
    var ctx: bool
    const writer: Writer
    const flusher: Flusher

    /** `New`: the context is left nil. */
    constructor (writer: Writer, flusher: Flusher)
      ensures fresh(ident) && ident.id == "" && !ctx
      ensures this.writer == writer && this.flusher == flusher
    {
      ident := new Identifiable();
      ctx := false;
      this.writer := writer;
      this.flusher := flusher;
    }

    function ID(): string
      reads ident
    {
      ident.ID()
    }

    method SetID(id: string)
      modifies ident
      ensures ID() == id
    {
      ident.SetID(id);
    }

    /**
     * Without a context nothing is written. Otherwise the event's frame is
     * appended to what was written before, and the writer is flushed once.
     * Reading the name of a nil event is a nil dereference, hence the
     * precondition.
     */
    method Notify(event: Goqa.Event) returns (err: Option<Error>)
      requires ctx ==> !event.Nil?
      modifies writer, flusher
      ensures !ctx ==> writer.text == old(writer.text) && flusher.count == old(flusher.count)
      ensures ctx ==> writer.text == old(writer.text) + Frame(Name(event), EventText(event))
      ensures ctx ==> flusher.count == old(flusher.count) + 1
      ensures err == None
    {
      if !ctx {
        return None;
      }
      WriteFrame(Name(event), EventText(event), writer, flusher);
      return None;
    }

    method Serialize() returns (s: string, err: Option<Error>)
      ensures s == "" && err == Some(ErrSerializeNotSupported)
    {
      return "", Some(ErrSerializeNotSupported);
    }

    method Unserialize(s: string) returns (err: Option<Error>)
      ensures err == Some(ErrSerializeNotSupported)
    {
      return Some(ErrSerializeNotSupported);
    }
  }

  /** Two notifications in a row append their frames in call order after what was there. */
  method NotifyTwice(s: Sse, a: Goqa.Event, b: Goqa.Event)
    requires s.ctx && !a.Nil? && !b.Nil?
    modifies s.writer, s.flusher
    ensures s.writer.text == old(s.writer.text) + Frame(Name(a), EventText(a)) + Frame(Name(b), EventText(b))
    ensures s.flusher.count == old(s.flusher.count) + 2
  {
    var _ := s.Notify(a);
    var _ := s.Notify(b);
  }
}
