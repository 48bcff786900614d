/**
 * The playback synchroniser of src/components/transcription/hooks/useVideoPlayer.ts:
 * it keeps the current segment index in step with the player's position and
 * turns navigation into commands for the player.
 */
module VideoPlayer {
  import opened Wrappers
  import opened TimeUtils
  import opened TranscriptionTypes
  import opened KeyboardControls

  /** Player state codes of the YouTube IFrame API that the hook tests for. */
  const Playing: int := 1
  const Paused: int := 2

  /** Extra time after the last segment's end during which that segment stays selected. */
  const EndTolerance: real := 0.5

  function StartSeconds(segment: Segment): nat
  {
    TimeToSeconds(segment.startTime)
  }

  function EndSeconds(segment: Segment): nat
  {
    TimeToSeconds(segment.endTime)
  }

  /**
   * Segment `i` holds time `t`: `[start, end)` for every segment but the last,
   * `[start, end + 0.5]` for the last.
   */
  predicate Covers(segments: seq<Segment>, i: nat, t: real)
    requires i < |segments|
  {
    var start, end := StartSeconds(segments[i]) as real, EndSeconds(segments[i]) as real;
    start <= t && if i == |segments| - 1 then t <= end + EndTolerance else t < end
  }

  /** The first segment from index `from` on that holds `t`, or -1 when there is none. */
  function FirstCovering(segments: seq<Segment>, t: real, from: nat): (r: int)
    requires from <= |segments|
    ensures r == -1 || from <= r < |segments|
    ensures r >= 0 ==> Covers(segments, r, t) && forall i :: from <= i < r ==> !Covers(segments, i, t)
    ensures r == -1 ==> forall i :: from <= i < |segments| ==> !Covers(segments, i, t)
    decreases |segments| - from
  {
    if from == |segments| then -1
    else if Covers(segments, from, t) then from
    else FirstCovering(segments, t, from + 1)
  }

  /** The scan of `checkPlayerTime`: index order, first match wins, -1 when no segment holds `t`. */
  method FindSegment(segments: seq<Segment>, t: real) returns (idx: int)
    ensures idx == FirstCovering(segments, t, 0)
    ensures idx == -1 <==> forall i :: 0 <= i < |segments| ==> !Covers(segments, i, t)
    ensures idx >= 0 ==> idx < |segments| && Covers(segments, idx, t)
    ensures forall i :: 0 <= i < idx ==> !Covers(segments, i, t)
  {
    idx := -1;
    var i := 0;
    while i < |segments|
      invariant 0 <= i <= |segments|
      invariant forall k :: 0 <= k < i ==> !Covers(segments, k, t)
      invariant FirstCovering(segments, t, i) == FirstCovering(segments, t, 0)
    {
      if Covers(segments, i, t) {
        idx := i;
        break;
      }
      i := i + 1;
    }
  }

  /** The duck-typed player: which optional methods it has, its state code and its position. */
  datatype PlayerHandle = PlayerHandle(
    hasSeekTo: bool, hasGetPlayerState: bool, hasPlayVideo: bool, hasPauseVideo: bool,
    hasGetCurrentTime: bool, state: int, currentTime: real)

  /** A call the hook makes on the player. */
  datatype Command = SeekTo(seconds: nat, allowSeekAhead: bool) | PlayVideo | PauseVideo

  /**
   * What `seekToSegment(index)` tells the player: nothing without a player, a
   * `seekTo` method or a segment at `index`; otherwise a seek to the segment's
   * start, followed by play when the player is not already playing.
   */
  function SeekCommands(segments: seq<Segment>, player: Option<PlayerHandle>, index: int): (cmds: seq<Command>)
    ensures |cmds| <= 2
    ensures |cmds| > 0 <==> player.Some? && player.value.hasSeekTo && 0 <= index < |segments|
    ensures |cmds| > 0 ==> cmds[0] == SeekTo(StartSeconds(segments[index]), true)
    ensures |cmds| == 2 <==>
      |cmds| > 0 && player.value.hasGetPlayerState && player.value.state != Playing && player.value.hasPlayVideo
    ensures |cmds| == 2 ==> cmds[1] == PlayVideo
  {
    if player.Some? && 0 <= index < |segments| && player.value.hasSeekTo then
      var p := player.value;
      [SeekTo(StartSeconds(segments[index]), true)]
        + (if p.hasGetPlayerState && p.state != Playing && p.hasPlayVideo then [PlayVideo] else [])
    else []
  }

  /** What `togglePlayPause` tells the player: pause when playing, play in every other state. */
  function ToggleCommands(player: Option<PlayerHandle>): (cmds: seq<Command>)
    ensures |cmds| > 0 <==>
      player.Some? && player.value.hasGetPlayerState && player.value.hasPlayVideo && player.value.hasPauseVideo
    ensures |cmds| > 0 ==> |cmds| == 1 && (cmds[0] == PauseVideo <==> player.value.state == Playing)
    ensures |cmds| > 0 ==> cmds[0] in {PauseVideo, PlayVideo}
  {
    if player.Some? && player.value.hasGetPlayerState && player.value.hasPlayVideo && player.value.hasPauseVideo then
      if player.value.state == Playing then [PauseVideo] else [PlayVideo]
    else []
  }

  /** The polling effect runs, and on this tick reads a playing or paused player. */
  predicate TickApplies(segments: seq<Segment>, player: Option<PlayerHandle>)
  {
    && player.Some? && |segments| > 0 && player.value.hasGetCurrentTime
    && player.value.hasGetPlayerState && player.value.state in {Playing, Paused}
  }

  /**
   * The current index after one `checkPlayerTime` tick: it changes only when the
   * tick applies and a segment holds the player's time, and then to the first such.
   */
  function TickIndex(segments: seq<Segment>, current: int, player: Option<PlayerHandle>): (r: int)
    ensures r != current ==> TickApplies(segments, player)
    ensures r != current ==> r == FirstCovering(segments, player.value.currentTime, 0) && 0 <= r < |segments|
    ensures TickApplies(segments, player) && FirstCovering(segments, player.value.currentTime, 0) >= 0 ==>
      r == FirstCovering(segments, player.value.currentTime, 0)
  {
    if TickApplies(segments, player) then
      var idx := FirstCovering(segments, player.value.currentTime, 0);
      if idx != -1 && idx != current then idx else current
    else current
  }

  /** Ticking again at the same time changes nothing. */
  lemma TickIdempotent(segments: seq<Segment>, current: int, player: Option<PlayerHandle>)
    ensures TickIndex(segments, TickIndex(segments, current, player), player) == TickIndex(segments, current, player)
  {
  }

  /** A tick keeps an in-range index in range. */
  lemma TickKeepsRange(segments: seq<Segment>, current: int, player: Option<PlayerHandle>)
    requires 0 <= current < |segments|
    ensures 0 <= TickIndex(segments, current, player) < |segments|
  {
  }

  /** For overlapping segments the earlier one wins. */
  lemma EarlierSegmentWins(segments: seq<Segment>, t: real, i: nat, j: nat)
    requires i < j < |segments| && Covers(segments, i, t) && Covers(segments, j, t)
    ensures FirstCovering(segments, t, 0) <= i
  {
  }

  /**
   * The hook's state: the segment list it is given, the current index (owned
   * by the transcription state and set through `setCurrentSegment`), the player
   * once it is ready, and the log of commands sent to it.
   */
  class PlayerSync {
    var segments: seq<Segment>
    var currentSegment: int
    var player: Option<PlayerHandle>
    var commands: seq<Command>

    ghost predicate InRange()
      reads this
    {
      0 <= currentSegment < |segments|
    }

    constructor (segments: seq<Segment>, currentSegment: int)
      ensures this.segments == segments && this.currentSegment == currentSegment
      ensures player == None && commands == []
    {
      this.segments := segments;
      this.currentSegment := currentSegment;
      player := None;
      commands := [];
    }

    /** `onPlayerReady`: the player becomes available. */
    method OnPlayerReady(p: PlayerHandle)
      modifies this`player
      ensures player == Some(p)
    {
      player := Some(p);
    }

    /** The player's state code and position change (outside the hook). */
    method PlayerReports(state: int, time: real)
      modifies this`player
      ensures old(player).None? ==> player == None
      ensures old(player).Some? ==> player == Some(old(player).value.(state := state, currentTime := time))
    {
      if player.Some? {
        player := Some(player.value.(state := state, currentTime := time));
      }
    }

    /** A new segment list arrives; the current index is not reset. */
    method ReceiveSegments(segments: seq<Segment>)
      modifies this`segments
      ensures this.segments == segments
    {
      this.segments := segments;
    }

    method SeekToSegment(index: int)
      modifies this`commands
      ensures commands == old(commands) + SeekCommands(segments, player, index)
    {
      if player.Some? && 0 <= index < |segments| && player.value.hasSeekTo {
        commands := commands + [SeekTo(StartSeconds(segments[index]), true)];
        var p := player.value;
        if p.hasGetPlayerState && p.state != Playing && p.hasPlayVideo {
          commands := commands + [PlayVideo];
        }
      }
    }

    /** `handleNextSegment`: at the last index nothing happens. */
    method HandleNextSegment()
      modifies this`currentSegment, this`commands
      ensures old(currentSegment) < |segments| - 1 ==>
        currentSegment == old(currentSegment) + 1
        && commands == old(commands) + SeekCommands(segments, player, currentSegment)
      ensures old(currentSegment) >= |segments| - 1 ==>
        currentSegment == old(currentSegment) && commands == old(commands)
      ensures old(InRange()) ==> InRange()
    {
      if currentSegment < |segments| - 1 {
        currentSegment := currentSegment + 1;
        SeekToSegment(currentSegment);
      }
    }

    /** `handlePrevSegment`: at index 0 nothing happens. */
    method HandlePrevSegment()
      modifies this`currentSegment, this`commands
      ensures old(currentSegment) > 0 ==>
        currentSegment == old(currentSegment) - 1
        && commands == old(commands) + SeekCommands(segments, player, currentSegment)
      ensures old(currentSegment) <= 0 ==>
        currentSegment == old(currentSegment) && commands == old(commands)
      ensures old(InRange()) ==> InRange()
    {
      if currentSegment > 0 {
        currentSegment := currentSegment - 1;
        SeekToSegment(currentSegment);
      }
    }

    /** `handleSliderChange`: only a first value inside `[0, |segments|)` is taken. */
    method HandleSliderChange(value: seq<int>)
      modifies this`currentSegment, this`commands
      ensures |value| > 0 && 0 <= value[0] < |segments| ==>
        currentSegment == value[0] && commands == old(commands) + SeekCommands(segments, player, value[0])
      ensures !(|value| > 0 && 0 <= value[0] < |segments|) ==>
        currentSegment == old(currentSegment) && commands == old(commands)
      ensures old(InRange()) ==> InRange()
    {
      if |value| > 0 && 0 <= value[0] < |segments| {
        currentSegment := value[0];
        SeekToSegment(currentSegment);
      }
    }

    /** One tick of the polling loop; it never sends a command. */
    method CheckPlayerTime()
      modifies this`currentSegment
      ensures currentSegment == TickIndex(segments, old(currentSegment), player)
      ensures old(InRange()) ==> InRange()
    {
      if TickApplies(segments, player) {
        var idx := FindSegment(segments, player.value.currentTime);
        if idx != -1 && idx != currentSegment {
          currentSegment := idx;
        }
      }
    }

    method TogglePlayPause()
      modifies this`commands
      ensures commands == old(commands) + ToggleCommands(player)
    {
      var p := player;
      if p.Some? && p.value.hasGetPlayerState && p.value.hasPlayVideo && p.value.hasPauseVideo {
        if p.value.state == Playing {
          commands := commands + [PauseVideo];
        } else {
          commands := commands + [PlayVideo];
        }
      }
    }

    /**
     * The keyboard bridge: the key's action, if any, runs its handler; in a
     * text field nothing changes.
     */
    method KeyDown(target: Option<Element>, key: string) returns (preventDefault: bool)
      modifies this`currentSegment, this`commands
      ensures preventDefault == HandleKeyDown(target, key).preventDefault
      ensures HandleKeyDown(target, key).action.None? ==>
        currentSegment == old(currentSegment) && commands == old(commands)
      ensures HandleKeyDown(target, key).action == Some(KeyboardControls.TogglePlayPause) ==>
        currentSegment == old(currentSegment) && commands == old(commands) + ToggleCommands(player)
      ensures HandleKeyDown(target, key).action == Some(NextSegment) ==>
        var moved := old(currentSegment) < |segments| - 1;
        && currentSegment == (if moved then old(currentSegment) + 1 else old(currentSegment))
        && commands == (if moved then old(commands) + SeekCommands(segments, player, currentSegment) else old(commands))
      ensures HandleKeyDown(target, key).action == Some(PrevSegment) ==>
        var moved := old(currentSegment) > 0;
        && currentSegment == (if moved then old(currentSegment) - 1 else old(currentSegment))
        && commands == (if moved then old(commands) + SeekCommands(segments, player, currentSegment) else old(commands))
      ensures old(InRange()) ==> InRange()
    {
      var outcome := HandleKeyDown(target, key);
      preventDefault := outcome.preventDefault;
      if outcome.action == Some(PrevSegment) {
        HandlePrevSegment();
      } else if outcome.action == Some(NextSegment) {
        HandleNextSegment();
      } else if outcome.action == Some(KeyboardControls.TogglePlayPause) {
        TogglePlayPause();
      }
    }
  }
}
