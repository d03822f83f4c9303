/** What workers advertise, jobs require and tiles exchange (src/contracts/models.py, schema.sql). */
module Contracts {
  import opened Base
  import opened Partition
  import opened Jobkit
  import Optimize
  import Fractal
  import Synth
  import HashCrack
  import MonteCarlo

  type WorkerId = string

  /** A UUID in hex: fixed length, so that the text order of job ids is the order of these numbers. */
  type JobId = nat

  /** Microseconds; IsoTime shows that comparing the stored strings is comparing these. */
  type Time = int

  datatype Requires = Requires(
    needsGpu: bool, minVram: Option<real>, minRam: Option<real>, accel: set<string>, minCpus: int)

  datatype Capability = Capability(
    measurementOnly: bool, cpus: int, ramGb: real, freeRamGb: Option<real>, hasGpu: bool,
    vram: Option<real>, accel: set<string>)

  /** The signed part of a job, fixed at submission. */
  datatype Manifest = Manifest(kind: string, requirements: Requires, classification: string)

  /** The field `x` of a challenge input: absent or not a number, an integer, or a float. */
  datatype Number = NoNumber | IntNumber(n: int) | FloatNumber

  datatype TileInput =
    | OptimizeTile(sweep: Sweep, range: Range)
    | FractalTile(frame: Frame, range: Range)
    | SynthTile(spec: Spec, range: Range)
    | HashTile(prefix: string, target: string, first: int, range: Range)
    | MonteCarloTile(market: Market, lo: real, hi: real, bins: nat, seed: int, paths: int)

  datatype Payload = Challenge(x: Number) | Tile(tile: TileInput) | Opaque(text: string)

  datatype TileOutput =
    | Optimized(best: Optimize.OptimizeOut)
    | Rendered(image: Fractal.FractalOut)
    | Synthesized(synth: Synth.SynthOut)
    | Searched(hash: HashCrack.HashOut)
    | Simulated(risk: MonteCarlo.McOut)

  /** A posted result: a challenge answer (None if `y` is not an integer), a tile's output, an empty dict, or anything
      else. */
  datatype Output = Answer(y: Option<int>) | TileDone(out: TileOutput) | EmptyDict | Other(text: string)
}
