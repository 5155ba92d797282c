/** The caller's `Message` struct: initialised, filled by the decoder, and freed in place. */
module Representation {
  import opened Bytes
  import Numbers
  import Json
  import Lookup
  import opened Messages
  import Parser
  import ParseBuffer

  class MessageStruct {
    var contents: Message

    constructor ()
      ensures contents.Invalid?
    {
      contents := Invalid;
    }

    method HardwareErrorValve(valveNo: int, text: Text)
      modifies this
      ensures contents == Message.HardErrorValve(valveNo, text)
    {
      contents := Message.HardErrorValve(valveNo, text);
    }

    method HardwareErrorOther(text: Text)
      modifies this
      ensures contents == Message.HardErrorOther(text)
    {
      contents := Message.HardErrorOther(text);
    }

    method SoftwareError(text: Text)
      modifies this
      ensures contents == Message.SoftError(text)
    {
      contents := Message.SoftError(text);
    }

    method SetKeepAlive()
      modifies this
      ensures contents == Message.KeepAlive
    {
      contents := Message.KeepAlive;
    }

    /** `free_message`: the struct is marked so that it cannot be used again. */
    method Free()
      modifies this
      ensures contents.Invalid?
    {
      contents := Invalid;
    }

    /** `decode_message` on a C string; a refused text leaves the struct as it was. */
    method Decode(encodedMessage: Text) returns (ok: bool)
      requires NulFree(encodedMessage)
      modifies this
      ensures ok <==> Messages.Decode(encodedMessage).Some?
      ensures if ok then contents == Messages.Decode(encodedMessage).value else contents == old(contents)
    {
      hide Parser.Parse, CString;
      CStringOfNulFree(encodedMessage);
      var parsed := ParseBuffer.ParseWithOpts(encodedMessage, false);
      if parsed.Fail? {
        return false;
      }
      var root := parsed.value;
      Parser.ParsedTexts(encodedMessage, false);
      NamesNulFree();
      hide Json.CStrings;
      var version := Lookup.GetObjectItem(root, VERSION, false);
      if version.None? || !version.value.Num? || version.value.v != FORMAT_VERSION {
        return false;
      }
      var data := Lookup.GetObjectItem(root, DATA, false);
      if data.None? {
        return false;
      }
      var kind := Lookup.GetObjectItem(root, TYPE, false);
      if kind.None? || !kind.value.Str? {
        return false;
      }
      ok := Fill(kind.value.s, data.value);
    }

    /** The chain of comparisons with the type's name. */
    method Fill(kind: Text, data: Json.Json) returns (ok: bool)
      requires Json.CStrings(data)
      modifies this
      ensures ok <==> DecodeData(kind, data).Some?
      ensures if ok then contents == DecodeData(kind, data).value else contents == old(contents)
    {
      NamesNulFree();
      var description := None;
      if HasPrefix(kind, SOFT_ERR) || HasPrefix(kind, HARD_ERROR_OTHER) || HasPrefix(kind, HARD_ERROR_VALVE) {
        description := Lookup.GetObjectItem(data, MESSAGE, false);
        if description.None? || !description.value.Str? {
          return false;
        }
      }
      if HasPrefix(kind, SOFT_ERR) {
        SoftwareError(description.value.s);
      } else if HasPrefix(kind, HARD_ERROR_OTHER) {
        HardwareErrorOther(description.value.s);
      } else if HasPrefix(kind, HARD_ERROR_VALVE) {
        var valve := Lookup.GetObjectItem(data, VALVE_NO, false);
        if valve.None? || !valve.value.Num? {
          return false;
        }
        HardwareErrorValve(Numbers.ValueInt(valve.value.v), description.value.s);
      } else if kind == KEEP_ALIVE {
        SetKeepAlive();
      } else {
        return false;
      }
      ok := true;
    }
  }

  lemma NamesNulFree()
    ensures NulFree(VERSION) && NulFree(DATA) && NulFree(TYPE) && NulFree(MESSAGE) && NulFree(VALVE_NO)
  {
  }
}
