/** The canonical configuration: the fields derived from the user's
    configuration file and the internal preferences file. */
module Config {
  import opened Base
  import SliderMapping
  import Sessions

  /** Serial port settings. */
  datatype ConnectionInfo = ConnectionInfo(comPort: string, baudRate: int)

  const DefaultCOMPort: string := "COM7"
  const DefaultBaudRate: int := 9600

  /** A one-slider mapping of slider 0 to the master volume. */
  const DefaultSliderMapping: SliderMapping.SliderMap := map[0 := [Sessions.MasterSessionName]]

  /** validateBaudRate: a positive rate is kept, anything else becomes the default. */
  function ValidateBaudRate(baudRate: int): (r: int)
    ensures r > 0
    ensures r == baudRate || r == DefaultBaudRate
  {
    if baudRate > 0 then baudRate else DefaultBaudRate
  }

  /** A rate passes validation unchanged exactly when it is positive or already
      the default, and validating twice is validating once. */
  lemma ValidateBaudRateFixedPoints(baudRate: int)
    ensures ValidateBaudRate(baudRate) == baudRate <==> baudRate > 0
    ensures ValidateBaudRate(ValidateBaudRate(baudRate)) == ValidateBaudRate(baudRate)
  {
  }

  /** The values the user's file supplies; an absent key reads as the default
      registered for it, or the zero value when none is. */
  datatype UserValues = UserValues(
    sliderMapping: Option<SliderMapping.RawMapping>,
    sliderMappingOrder: seq<string>,
    invertSliders: Option<bool>,
    comPort: Option<string>,
    baudRate: Option<int>,
    noiseReduction: Option<string>)

  /** The internal preferences file: only its slider mapping is read, and it
      has no registered defaults. */
  datatype InternalValues = InternalValues(sliderMapping: SliderMapping.RawMapping, sliderMappingOrder: seq<string>)

  /** The fields populateFromVipers derives. */
  datatype CanonicalConfig = CanonicalConfig(
    sliderMapping: SliderMapping.SliderMap,
    connectionInfo: ConnectionInfo,
    invertSliders: bool,
    noiseReductionLevel: string)

  function OrDefault<T>(v: Option<T>, d: T): T
  {
    match v
    case Some(x) => x
    case None => d
  }

  /** The user mapping's traversal is one of its keys. */
  predicate TraversalsFit(user: UserValues, internal: InternalValues)
  {
    && Enumerates(user.sliderMappingOrder, OrDefault(user.sliderMapping, map[]).Keys)
    && Enumerates(internal.sliderMappingOrder, internal.sliderMapping.Keys)
  }

  /** populateFromVipers: the merged slider mapping, the port and the validated
      baud rate, the inversion flag and the noise level; the registered
      defaults are an empty mapping, no inversion, COM7 and 9600 baud. */
  function PopulateFromVipers(user: UserValues, internal: InternalValues): (cc: CanonicalConfig)
    requires TraversalsFit(user, internal)
    ensures cc.connectionInfo.baudRate > 0
    ensures SliderMapping.NoEmptyTargets(cc.sliderMapping)
    ensures cc.sliderMapping.Keys == SliderMapping.ParsedIndices(OrDefault(user.sliderMapping, map[]))
                                   + SliderMapping.ParsedIndices(internal.sliderMapping)
    ensures cc.connectionInfo.comPort == OrDefault(user.comPort, DefaultCOMPort)
    ensures cc.invertSliders == OrDefault(user.invertSliders, false)
    ensures cc.noiseReductionLevel == OrDefault(user.noiseReduction, "")
  {
    CanonicalConfig(
      SliderMapping.FromConfigs(OrDefault(user.sliderMapping, map[]), user.sliderMappingOrder,
                                internal.sliderMapping, internal.sliderMappingOrder),
      ConnectionInfo(OrDefault(user.comPort, DefaultCOMPort), ValidateBaudRate(OrDefault(user.baudRate, DefaultBaudRate))),
      OrDefault(user.invertSliders, false),
      OrDefault(user.noiseReduction, ""))
  }

  /** When no two internal keys parse to the same slider, each slider of the
      populated mapping merges the user's list for it (from the last user key
      in traversal order) with the internal list for it. */
  lemma PopulatedMappingMerges(user: UserValues, internal: InternalValues, i: int)
    requires TraversalsFit(user, internal) && SliderMapping.Injective(internal.sliderMapping)
    ensures var u := OrDefault(user.sliderMapping, map[]);
            var userList := SliderMapping.ListOf(u, SliderMapping.LastFor(user.sliderMappingOrder, i));
            var internalList := SliderMapping.ListOf(internal.sliderMapping, SliderMapping.LastFor(internal.sliderMappingOrder, i));
            SliderMapping.Entry(PopulateFromVipers(user, internal).sliderMapping, i) == SliderMapping.Merged(userList, internalList)
  {
    SliderMapping.MergeLaw(OrDefault(user.sliderMapping, map[]), user.sliderMappingOrder,
                           internal.sliderMapping, internal.sliderMappingOrder, i);
  }

  /** With both files empty the result is COM7 at 9600 baud, not inverted, with
      the default noise level and NO slider mapped: the one-slider default
      mapping is never consulted. */
  lemma EmptyFilesConfig()
    ensures var cc := PopulateFromVipers(UserValues(None, [], None, None, None, None), InternalValues(map[], []));
            && cc == CanonicalConfig(map[], ConnectionInfo(DefaultCOMPort, DefaultBaudRate), false, "")
            && cc.sliderMapping != DefaultSliderMapping
  {
    var cc := PopulateFromVipers(UserValues(None, [], None, None, None, None), InternalValues(map[], []));
    assert cc.sliderMapping.Keys == {};
    assert 0 in DefaultSliderMapping;
  }

  /** A non-positive baud rate in the file is replaced by 9600; a positive one is kept. */
  lemma BaudRateFromFile(user: UserValues, internal: InternalValues, b: int)
    requires TraversalsFit(user, internal) && user.baudRate == Some(b)
    ensures PopulateFromVipers(user, internal).connectionInfo.baudRate == if b > 0 then b else DefaultBaudRate
  {
  }
}
