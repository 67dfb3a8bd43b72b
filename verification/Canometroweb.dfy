/** The networked chronometer of src/modules/canometroweb.c: module_read compares what the device
    reports with what it reported last time and turns the difference into at most one command. */
module Canometroweb {
  import opened TextTools
  import opened MainStatus

  // One answer of the device (parse_status_xml).
  datatype Device = Device(tiempo: nat, running: int, faltas: int, rehuses: int, eliminado: int)

  // The part of cw_data that module_read looks at.
  datatype Seen = Seen(tiempo: nat, running: int)

  datatype Event = Quiet | Start | Halted(t: nat) | Split(t: nat) | Cleared | Score(f: int, r: int, e: int)

  /** What a poll reports, said in terms of the race: the clock started, was restarted, halted, was
      cleared, or shows a split time (it runs, but the reported time stands still). */
  function EdgeOf(was: Seen, d: Device): Event {
    if d.running != 0 then
      if was.running == 0 || (was.tiempo != 0 && d.tiempo == 0) then Start
      else if was.tiempo != 0 && was.tiempo == d.tiempo then Split(d.tiempo)
      else Quiet
    else if d.tiempo == 0 then
      if was.running != 0 || was.tiempo != 0 then Cleared else Quiet
    else if was.running != 0 && was.tiempo != 0 then Halted(d.tiempo)
    else Quiet
  }

  // A poll without an edge compares the scores with those of the main loop.
  function PollEvent(was: Seen, st: Status, d: Device): Event {
    if EdgeOf(was, d) != Quiet then EdgeOf(was, d)
    else if d.faltas != Total(st) || d.rehuses != st.refusals || d.eliminado != st.eliminated then
      Score(d.faltas, d.rehuses, d.eliminado)
    else Quiet
  }

  // A command line with one argument, as snprintf composes it.
  function Line(cmd: string, arg: string, eol: string): string {
    cmd + " " + arg + eol
  }

  // The argument of a data command.
  function ScoreText(f: int, r: int, e: int): string {
    Decimal(f) + ":" + Decimal(r) + ":" + Decimal(e)
  }

  function Text(e: Event): string {
    match e
    case Quiet => ""
    case Start => Line("START", "0", "\n")
    case Halted(t) => Line("STOP", Decimal(t), "\n")
    case Split(t) => Line("INT", Decimal(t), "\n")
    case Cleared => "RESET" + "\n"
    case Score(f, r, e) => Line("DATA", ScoreText(f, r, e), "")
  }

  class Poller {
    const config: Configuration
    var tiempo: nat
    var running: int
    var faltas: int
    var rehuses: int
    var eliminado: int

    constructor (config: Configuration)
      ensures this.config == config && tiempo == 0 && running == 0
    {
      this.config := config;
      tiempo, running, faltas, rehuses, eliminado := 0, 0, 0, 0, 0;
    }

    function Last(): Seen
      reads this
    {
      Seen(tiempo, running)
    }

    // The switch over the four bits "stored running, stored time, running, time" (src/modules/canometroweb.c:512-576).
    method EdgeText(data: Device) returns (buffer: string)
      ensures buffer == Text(EdgeOf(Last(), data))
    {
      var mask := 0;
      mask := mask + (if running == 0 then 0 else 8);
      mask := mask + (if tiempo == 0 then 0 else 4);
      mask := mask + (if data.running == 0 then 0 else 2);
      mask := mask + (if data.tiempo == 0 then 0 else 1);
      buffer := "";
      match mask
      case 0x2 => buffer := Line("START", "0", "\n");
      case 0x3 => buffer := Line("START", "0", "\n");
      case 0x4 => buffer := "RESET" + "\n";
      case 0x6 => buffer := Line("START", "0", "\n");
      case 0x7 => buffer := Line("START", "0", "\n");
      case 0x8 => buffer := "RESET" + "\n";
      case 0xc => buffer := "RESET" + "\n";
      case 0xd => buffer := Line("STOP", Decimal(data.tiempo), "\n");
      case 0xe => buffer := Line("START", "0", "\n");
      case 0xf =>
        if tiempo == data.tiempo {
          buffer := Line("INT", Decimal(data.tiempo), "\n");
        }
      case _ =>
    }

    /** module_read (src/modules/canometroweb.c:468-620), given the device's answer. */
    method ModuleRead(data: Device) returns (buffer: string)
      modifies this
      ensures buffer == Text(PollEvent(old(Last()), config.Now(), data))
      ensures Last() == Seen(data.tiempo, data.running)
    {
      buffer := EdgeText(data);
      tiempo := data.tiempo;
      running := data.running;
      if buffer != "" {
        return;
      }
      if data.faltas != config.faults + config.touchs || data.rehuses != config.refusals || data.eliminado != config.eliminated {
        faltas, rehuses, eliminado := data.faltas, data.rehuses, data.eliminado;
        buffer := Line("DATA", ScoreText(faltas, rehuses, eliminado), "");
      }
    }
  }
}
