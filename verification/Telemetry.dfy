/** The telemetry frame. Optional channels are `Option`s; every real channel is finite. */
module Telemetry {
  import opened Prelude

  datatype Frame = Frame(
    timestampUnixMs: int,
    speedMps: real,
    rpm: real,
    gear: int,
    throttle: real,
    brake: real,
    steering: real,
    fuelLiters: real,
    positionX: real,
    positionY: real,
    positionZ: real,
    yawRadians: Option<real>,
    yawRate: Option<real>,
    wheelSpeedFL: Option<real>,
    wheelSpeedFR: Option<real>,
    wheelSpeedRL: Option<real>,
    wheelSpeedRR: Option<real>,
    lapDistanceMeters: Option<real>,
    lapNumber: int,
    currentLapMs: int,
    lastLapMs: Option<int>,
    bestLapMs: Option<int>,
    isOnTrack: bool)

  /** One upload of frames to a session. */
  datatype Batch = Batch(sessionId: string, frames: seq<Frame>)
}
