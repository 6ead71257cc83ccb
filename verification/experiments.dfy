/**
 The experiment-parameter registry (helper/experiments.py): one record of
 calibration parameters per recorded or simulated experiment, keyed by the
 experiment's name. Each entry is the default record with the fields the
 entry names overridden, as the dataclass keyword arguments do.
 */
module Experiments {
  import opened Wrappers

  /**
   The parameters of one experiment. `yRotate`, `min` and `max` are
   optional because some entries set them to `None`; `link` is optional
   because `None` marks data that is not open source.
   */
  datatype ExperimentData = ExperimentData(
    link: Option<string>,
    shiftX: real,
    shiftY: real,
    unit: int,
    refX: int,
    refY: int,
    xRotate: int,
    yRotate: Option<int>,
    min: Option<real>,
    max: Option<real>,
    fps: int,
    length: real,
    radius: real,
    circumference: real,
    cameraCapture: int,
    temporal: int)

  /** The dataclass defaults, which lie in every documented domain. */
  function Default(): (d: ExperimentData)
    ensures Conforms(d)
  {
    ExperimentData(
      link := Some("empty"), shiftX := 0.0, shiftY := 0.0, unit := 1, refX := 1, refY := 1,
      xRotate := 0, yRotate := Some(1), min := None, max := None, fps := 25,
      length := 0.0, radius := 0.0, circumference := 0.0, cameraCapture := 0, temporal := 0)
  }

  /** A reflection factor: 1 keeps the axis, -1 mirrors it. */
  predicate Reflection(r: int) {
    r == 1 || r == -1
  }

  /** A two-valued flag. */
  predicate Flag(b: int) {
    b == 0 || b == 1
  }

  /**
   The value domains the record's documentation gives: centimetres or
   metres, reflections of +-1, two-valued camera and time flags, a positive
   frame rate, a measurement area whose lower bound does not exceed its upper
   bound, and two distinct, non-negative array indices for the axis swap.
   */
  predicate Conforms(e: ExperimentData) {
    && (e.unit == 1 || e.unit == 100)
    && Reflection(e.refX) && Reflection(e.refY)
    && Flag(e.cameraCapture) && Flag(e.temporal)
    && e.fps > 0
    && (e.min.Some? && e.max.Some? ==> e.min.value <= e.max.value)
    && 0 <= e.xRotate
    && (e.yRotate.Some? ==> 0 <= e.yRotate.value && e.xRotate != e.yRotate.value)
  }

  /** The registry, entry for entry. */
  const Registry: map<string, ExperimentData> := map[
    "BaSiGo_germany_Ziemer" := Default().(
      link := Some("https://doi.org/10.34735/ped.2013.7"), shiftX := 1.0, shiftY := 3.0, refY := -1,
      xRotate := 3, yRotate := Some(2), fps := 16, length := 4.0, radius := 3.0, circumference := 26.84,
      cameraCapture := 0),
    "schoolWDGMainCircle_germany_Wang" := Default().(
      link := Some("https://doi.org/10.34735/ped.2014.2"), shiftX := 1.25, shiftY := 1.85, refY := -1,
      fps := 25, length := 2.5, radius := 1.85, circumference := 16.62, cameraCapture := 0),
    "schoolGymBayMainCircle_germany_Wang" := Default().(
      link := Some("https://doi.org/10.34735/ped.2014.2"), shiftX := 1.25, shiftY := 1.85,
      xRotate := 2, yRotate := Some(3), unit := 1, refY := -1, fps := 25, length := 2.5, radius := 1.85,
      circumference := 16.62, cameraCapture := 0),
    "schoolGymBayAncillaryCircle_germany_Wang" := Default().(
      link := Some("https://doi.org/10.34735/ped.2014.2"), unit := 100, shiftX := 1.25, shiftY := 1.85,
      xRotate := 3, yRotate := Some(2), refX := -1, refY := -1, fps := 25, length := 2.5, radius := 1.85,
      circumference := 16.62, cameraCapture := 0),
    "schoolWDGAncillaryCircle_germany_Wang" := Default().(
      link := Some("https://doi.org/10.34735/ped.2014.2"), unit := 100, shiftX := 1.25, shiftY := 1.85,
      xRotate := 2, yRotate := Some(3), refX := -1, refY := -1, fps := 25, length := 2.5, radius := 1.85,
      circumference := 16.62, cameraCapture := 0),
    "age_china_Cao" := Default().(
      link := Some("https://doi.org/10.34735/ped.2017.1"), shiftX := 2.5, shiftY := 2.5, unit := 100,
      fps := 25, length := 5.0, radius := 2.5, circumference := 25.70, cameraCapture := 0),
    "gender_palestine_Subaih" := Default().(
      link := Some("https://doi.org/10.34735/ped.2018.5"), shiftX := 0.0, shiftY := 0.0, unit := 1,
      min := Some(0.0), max := Some(3.14), fps := 25, length := 3.14, circumference := 3.14,
      cameraCapture := 1),
    "caserne_germany_Seyfried" := Default().(
      link := Some("https://doi.org/10.34735/ped.2006.1"), shiftX := 2.0, shiftY := 0.0, yRotate := None,
      unit := 100, refY := 1, min := Some(-2.0), max := Some(2.0), fps := 25, length := 4.0,
      cameraCapture := 1),
    "motivation_germany_lukowski" := Default().(
      link := Some("empty"), yRotate := None, unit := 100, refY := 1, min := Some(0.0), max := Some(2.0),
      fps := 25, length := 2.0, cameraCapture := 1),
    "genderCroMa_setupRight_germany_paetzke" := Default().(
      link := Some("https://doi.org/10.34735/ped.2021.5"), shiftX := -1.7, shiftY := 4.6, refY := -1,
      xRotate := 1, yRotate := Some(0), fps := 25, length := 2.3, radius := 1.65, circumference := 14.97,
      cameraCapture := 0),
    "genderCroMa_setupLeft_germany_paetzke" := Default().(
      link := Some("https://doi.org/10.34735/ped.2021.5"), shiftX := -1.7, shiftY := -1.3, refY := -1,
      xRotate := 1, yRotate := Some(0), fps := 25, length := 2.3, radius := 1.65, circumference := 14.97,
      cameraCapture := 0),
    "music_china_zeng2019" := Default().(
      link := Some("empty"), unit := 100, shiftX := 2.3, shiftY := 1.9, xRotate := 2, yRotate := Some(3),
      fps := 25, length := 4.995975, radius := 1.9, circumference := 21.93, cameraCapture := 0),
    "elderly_china_ren" := Default().(
      link := Some("empty"), shiftX := 2.5, shiftY := 2.5, refX := -1, xRotate := 2, yRotate := Some(3),
      fps := 25, length := 5.0, radius := 2.5, circumference := 25.7, cameraCapture := 0),
    "heightConstrains_china_ma" := Default().(
      link := Some("empty"), fps := 25, length := 4.0, radius := 2.4, circumference := 28.08,
      cameraCapture := 0, temporal := 1),
    "simulation_pathfinder_4fps" := Default().(
      link := Some("empty"), shiftY := 0.4, xRotate := 2, yRotate := Some(3), fps := 4, length := 2.3,
      radius := 1.65, circumference := 14.97, cameraCapture := 0),
    "simulation_pathfinder_25fps" := Default().(
      link := Some("empty"), shiftY := 0.4, xRotate := 2, yRotate := Some(3), fps := 25, length := 2.3,
      radius := 1.65, circumference := 14.97, cameraCapture := 0),
    "sim_jupedsim" := Default().(
      link := Some("empty"), unit := 1, fps := 25, length := 2.3, radius := 1.65, circumference := 14.97),
    "australia_left_MC" := Default().(
      link := Some("empty"), unit := 1, fps := 25, refX := -1, refY := -1, xRotate := 1, yRotate := Some(0),
      shiftX := 3.0, shiftY := 1.8, length := 2.3, radius := 1.65, circumference := 14.97),
    "australia_right_MC" := Default().(
      link := Some("empty"), unit := 1, fps := 25, refX := -1, refY := -1, xRotate := 1, yRotate := Some(0),
      shiftX := 3.0, shiftY := 8.0, length := 2.3, radius := 1.65, circumference := 14.97),
    "japan_MC" := Default().(
      link := Some("empty"), unit := 1, fps := 25, refX := -1, shiftX := 1.3, shiftY := 1.5, length := 2.3,
      radius := 1.65, circumference := 14.97),
    "china_1_MC" := Default().(
      link := Some("empty"), unit := 1, fps := 25, refX := -1, refY := -1, xRotate := 3, yRotate := Some(2),
      shiftX := 1.3, shiftY := 1.5, length := 2.3, radius := 1.65, circumference := 14.97),
    "china_2_MC" := Default().(
      link := Some("empty"), unit := 1, fps := 25, refX := -1, xRotate := 3, yRotate := Some(2),
      shiftX := 1.3, shiftY := 1.5, length := 2.3, radius := 1.65, circumference := 14.97),
    "australia_left_MC_2" := Default().(
      link := Some("empty"), unit := 1, fps := 25, refY := -1, shiftX := 1.15, shiftY := 1.8, length := 2.3,
      radius := 1.65, circumference := 14.97),
    "australia_right_MC_2" := Default().(
      link := Some("empty"), unit := 1, fps := 25, refY := -1, shiftX := 1.0, shiftY := 8.0, length := 2.3,
      radius := 1.65, circumference := 14.97),
    "china_1_MC_2" := Default().(
      link := Some("empty"), unit := 1, fps := 25, refY := -1, shiftX := 1.3, shiftY := 1.5, length := 2.3,
      radius := 1.65, circumference := 14.97),
    "china_2_MC_2" := Default().(
      link := Some("empty"), unit := 1, fps := 25, shiftX := 1.3, shiftY := 1.5, length := 2.3,
      radius := 1.65, circumference := 14.97),
    "germany_right_MC_2" := Default().(
      link := Some("empty"), shiftX := 1.7, shiftY := -4.6, fps := 25, length := 2.3, radius := 1.65,
      circumference := 14.97, cameraCapture := 0),
    "germany_left_MC_2" := Default().(
      link := Some("empty"), shiftX := 1.7, shiftY := 1.3, fps := 25, length := 2.3, radius := 1.65,
      circumference := 14.97, cameraCapture := 0),
    "japan_MC_2" := Default().(
      link := Some("empty"), unit := 1, fps := 25, refX := -1, shiftX := 1.3, shiftY := 1.5, length := 2.3,
      radius := 1.65, circumference := 14.97)
  ]

  /** The default record lies in every documented domain. */
  lemma DefaultConforms()
    ensures Conforms(Default())
    ensures Default().link == Some("empty") && Default().unit == 1 && Default().fps == 25
  {
  }

  /** Every entry of the registry lies in every documented domain. */
  lemma RegistryConforms()
    ensures forall name :: name in Registry ==> Conforms(Registry[name])
  {
  }

  /**
   `sim_jupedsim` names only its link, unit, frame rate and track geometry;
   everything else is the default: no shift, no reflection, x and y at
   indices 0 and 1, no measurement area, top view, frame-based time.
   */
  lemma SimJupedsimDefaults()
    ensures "sim_jupedsim" in Registry
    ensures var e := Registry["sim_jupedsim"];
      && e.shiftX == 0.0 && e.shiftY == 0.0 && e.refX == 1 && e.refY == 1
      && e.xRotate == 0 && e.yRotate == Some(1) && e.min.None? && e.max.None?
      && e.cameraCapture == 0 && e.temporal == 0
  {
  }

  /** Exactly the two side-view experiments leave out the second rotation index. */
  lemma AbsentYRotate()
    ensures forall name :: name in Registry && Registry[name].yRotate.None? <==>
      name == "caserne_germany_Seyfried" || name == "motivation_germany_lukowski"
  {
  }

  /**
   Looking an experiment up by name: `None` where Python's subscript would
   raise `KeyError`, otherwise a record in every documented domain.
   */
  function Lookup(name: string): (r: Option<ExperimentData>)
    ensures r.Some? <==> name in Registry
    ensures r.Some? ==> Conforms(r.value)
  {
    RegistryConforms();
    if name in Registry then Some(Registry[name]) else None
  }
}
