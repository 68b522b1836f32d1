/**
 The commands an output worker receives and the flag that marks a GPU texture as in use
 (mixer/src/lib.rs:606-629).
 */
module SendCommands {
  import opened Common

  /** An `Arc<AtomicBool>`: every clone refers to the same flag. */
  class BusyFlag {
    var on: bool

    constructor (on: bool)
      ensures this.on == on
    {
      this.on := on;
    }
  }

  /** Textures, pixel buffers and audio packets are identities. */
  datatype SendCmd =
    | Video(width: nat, height: nat, stride: nat, pts: int, data: nat, fpsN: nat, fpsD: nat)
    | GpuVideo(texture: nat, width: nat, height: nat, pts: int, fpsN: nat, fpsD: nat, busy: BusyFlag)
    | Audio(packet: nat)
    | Shutdown
  {
    predicate Picture() {
      Video? || GpuVideo?
    }

    /** The flag that this command keeps set until it is sent or dropped. */
    function Flags(): seq<BusyFlag> {
      if GpuVideo? then [busy] else []
    }
  }

  /** `release_send_cmd`: a dropped GPU frame frees its texture. */
  method ReleaseSendCmd(cmd: SendCmd)
    modifies cmd.Flags()
    ensures forall f :: f in cmd.Flags() ==> !f.on
  {
    if cmd.GpuVideo? {
      assert cmd.Flags()[0] == cmd.busy;
      cmd.busy.on := false;
    }
  }

  /** `clone_video_cmd`: only pictures in CPU memory can be sent twice. */
  function CloneVideoCmd(cmd: SendCmd): Option<SendCmd> {
    if cmd.Video? then Some(cmd) else None
  }

  /** `out` is the picture `cmd` for another slot: what is shown is the same, the timestamp and the rate are new. */
  ghost predicate Restamped(cmd: SendCmd, out: SendCmd, pts: int, fpsN: nat, fpsD: nat) {
    && (cmd.Video? ==>
          && out.Video? && out.width == cmd.width && out.height == cmd.height && out.stride == cmd.stride
          && out.data == cmd.data && out.pts == pts && out.fpsN == fpsN && out.fpsD == fpsD)
    && (cmd.GpuVideo? ==>
          && out.GpuVideo? && out.texture == cmd.texture && out.width == cmd.width && out.height == cmd.height
          && out.busy == cmd.busy && out.pts == pts && out.fpsN == fpsN && out.fpsD == fpsD)
    && (!cmd.Picture() ==> out == cmd)
  }

  /** `retimestamp` */
  function Retimestamp(cmd: SendCmd, pts: int, fpsN: nat, fpsD: nat): SendCmd {
    match cmd
    case Video(w, h, s, _, data, _, _) => Video(w, h, s, pts, data, fpsN, fpsD)
    case GpuVideo(t, w, h, _, _, _, busy) => GpuVideo(t, w, h, pts, fpsN, fpsD, busy)
    case _ => cmd
  }
}
