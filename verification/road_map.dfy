/**
 * GetAnyRoadBits (src/road_map.cpp): the road pieces a tile offers to road
 * vehicles of one road type, whatever kind of tile it is.
 *
 * A tile is modelled by the values its accessors return. The direction
 * helpers (DiagDirToRoadBits, AxisToRoadBits, DiagDirToAxis, ReverseDiagDir)
 * are given their usual four-direction, two-axis definitions.
 */
module RoadMap {
  /** The four diagonal directions, in their enum order: NE = 0, SE = 1, SW = 2, NW = 3. */
  datatype DiagDirection = NE | SE | SW | NW

  datatype Axis = AxisX | AxisY

  datatype RoadType = RoadTypeRoad | RoadTypeTram

  datatype TransportType = TransportRail | TransportRoad | TransportWater | TransportAir

  /** The tile types GetAnyRoadBits distinguishes; every other type is `OtherTileType`. */
  datatype TileType = RoadTile | MiscTile | StationTile | TunnelBridgeTile | OtherTileType

  /** Subtypes of misc tiles: level crossings, depots, and the ones GetAnyRoadBits never expects. */
  datatype MiscSubtype = Crossing | Depot | OtherMiscSubtype

  /** A set of road pieces, one bit per half-tile piece: NW = 1, SW = 2, SE = 4, NE = 8. */
  type RoadBits = bv4

  const ROAD_NONE: RoadBits := 0
  const ROAD_NW: RoadBits := 1
  const ROAD_SW: RoadBits := 2
  const ROAD_SE: RoadBits := 4
  const ROAD_NE: RoadBits := 8
  /** The straight road along the X axis: pieces SW and NE. */
  const ROAD_X: RoadBits := 10
  /** The straight road along the Y axis: pieces NW and SE. */
  const ROAD_Y: RoadBits := 5

  /**
   * What the tile accessors report for a tile. Each field is read only for
   * the tile types whose accessor it models.
   */
  datatype Tile = Tile(
    tileType: TileType,
    miscSubtype: MiscSubtype,
    roadTypes: set<RoadType>,          // HasTileRoadType
    roadBits: RoadType -> RoadBits,    // GetRoadBits, on road tiles
    crossingBits: RoadBits,            // GetCrossingRoadBits, on level crossings
    isRoadDepot: bool,                 // IsRoadDepot, on depots
    depotDirection: DiagDirection,     // GetRoadDepotDirection
    isRoadStop: bool,                  // IsRoadStopTile, on stations
    isDriveThroughStop: bool,          // IsDriveThroughStopTile
    roadStopDirection: DiagDirection,  // GetRoadStopDir
    transportType: TransportType,      // GetTunnelBridgeTransportType, on tunnels and bridges
    tunnelBridgeDirection: DiagDirection  // GetTunnelBridgeDirection
  )

  /** The single road piece pointing in direction `d`. */
  function DiagDirToRoadBits(d: DiagDirection): (r: RoadBits)
    ensures r == ROAD_NW || r == ROAD_SW || r == ROAD_SE || r == ROAD_NE
  {
    match d
    case NE => ROAD_NE
    case SE => ROAD_SE
    case SW => ROAD_SW
    case NW => ROAD_NW
  }

  /** The straight road along axis `a`. */
  function AxisToRoadBits(a: Axis): (r: RoadBits)
    ensures r == ROAD_X || r == ROAD_Y
  {
    if a == AxisX then ROAD_X else ROAD_Y
  }

  /** The axis a direction lies on: NE and SW on X, SE and NW on Y. */
  function DiagDirToAxis(d: DiagDirection): Axis
  {
    if d == NE || d == SW then AxisX else AxisY
  }

  /** The opposite direction. */
  function ReverseDiagDir(d: DiagDirection): (r: DiagDirection)
    ensures r != d && DiagDirToAxis(r) == DiagDirToAxis(d)
  {
    match d
    case NE => SW
    case SE => NW
    case SW => NE
    case NW => SE
  }

  /** A single road piece: exactly one of the four bits. */
  predicate IsSinglePiece(b: RoadBits)
  {
    b == ROAD_NW || b == ROAD_SW || b == ROAD_SE || b == ROAD_NE
  }

  /** Every piece of `a` is a piece of `b`. */
  predicate Within(a: RoadBits, b: RoadBits)
  {
    a & !b == 0
  }

  /** The straight road along a direction's axis is the piece in that direction and the piece opposite it. */
  lemma AxisIsBothEnds(d: DiagDirection)
    ensures AxisToRoadBits(DiagDirToAxis(d)) == DiagDirToRoadBits(d) | DiagDirToRoadBits(ReverseDiagDir(d))
    ensures DiagDirToRoadBits(d) & DiagDirToRoadBits(ReverseDiagDir(d)) == 0
  {
  }

  /** Different directions give disjoint pieces, so DiagDirToRoadBits loses nothing. */
  lemma PiecesDisjoint(d: DiagDirection, e: DiagDirection)
    ensures d != e <==> DiagDirToRoadBits(d) & DiagDirToRoadBits(e) == 0
  {
  }

  /**
   * GetAnyRoadBits: the road bits of `tile` for road type `rt`. Depot,
   * road-stop and tunnel or bridge entrances count as one road piece; with
   * `straightEntrance`, a road tunnel or bridge gives the straight road
   * along its axis instead. Misc tiles other than crossings and depots are
   * never passed in.
   */
  function GetAnyRoadBits(tile: Tile, rt: RoadType, straightEntrance: bool): (r: RoadBits)
    requires tile.tileType == MiscTile ==> tile.miscSubtype != OtherMiscSubtype
    ensures rt !in tile.roadTypes ==> r == ROAD_NONE
  {
    if rt !in tile.roadTypes then ROAD_NONE
    else
      match tile.tileType
      case RoadTile => tile.roadBits(rt)
      case MiscTile =>
        (match tile.miscSubtype
         case Crossing => tile.crossingBits
         case Depot => if tile.isRoadDepot then DiagDirToRoadBits(tile.depotDirection) else ROAD_NONE)
      case StationTile =>
        if !tile.isRoadStop then ROAD_NONE
        else if tile.isDriveThroughStop then (if tile.roadStopDirection == NE then ROAD_X else ROAD_Y)
        else DiagDirToRoadBits(tile.roadStopDirection)
      case TunnelBridgeTile =>
        if tile.transportType != TransportRoad then ROAD_NONE
        else if straightEntrance then AxisToRoadBits(DiagDirToAxis(tile.tunnelBridgeDirection))
        else DiagDirToRoadBits(ReverseDiagDir(tile.tunnelBridgeDirection))
      case OtherTileType => ROAD_NONE
  }

  /** Tiles whose road can be reached only through one entrance: road depots, bay road stops, and road tunnels or bridges looked at without the straight option. */
  predicate HasSingleEntrance(tile: Tile, straightEntrance: bool)
  {
    || (tile.tileType == MiscTile && tile.miscSubtype == Depot && tile.isRoadDepot)
    || (tile.tileType == StationTile && tile.isRoadStop && !tile.isDriveThroughStop)
    || (tile.tileType == TunnelBridgeTile && tile.transportType == TransportRoad && !straightEntrance)
  }

  /**
   * The entrance of a depot, a bay stop, or a tunnel or bridge ramp is a
   * single road piece: the one facing out of the depot or stop, and the one
   * facing away from the tunnel or bridge.
   */
  lemma EntranceIsSinglePiece(tile: Tile, rt: RoadType, straightEntrance: bool)
    requires tile.tileType == MiscTile ==> tile.miscSubtype != OtherMiscSubtype
    requires rt in tile.roadTypes && HasSingleEntrance(tile, straightEntrance)
    ensures IsSinglePiece(GetAnyRoadBits(tile, rt, straightEntrance))
    ensures tile.tileType == TunnelBridgeTile ==>
      GetAnyRoadBits(tile, rt, straightEntrance) & DiagDirToRoadBits(tile.tunnelBridgeDirection) == 0
  {
  }

  /**
   * A drive-through stop, whose direction is NE or SE, gives the straight
   * road along its axis: vehicles pass through it.
   */
  lemma DriveThroughIsStraight(tile: Tile, rt: RoadType, straightEntrance: bool)
    requires tile.tileType == StationTile && tile.isRoadStop && tile.isDriveThroughStop
    requires tile.roadStopDirection == NE || tile.roadStopDirection == SE
    ensures GetAnyRoadBits(tile, rt, straightEntrance) ==
      if rt in tile.roadTypes then AxisToRoadBits(DiagDirToAxis(tile.roadStopDirection)) else ROAD_NONE
  {
  }

  /** The straight-entrance option matters only on road tunnels and bridges. */
  lemma StraightEntranceOnlyTunnelBridge(tile: Tile, rt: RoadType)
    requires tile.tileType == MiscTile ==> tile.miscSubtype != OtherMiscSubtype
    ensures GetAnyRoadBits(tile, rt, true) != GetAnyRoadBits(tile, rt, false) <==>
      rt in tile.roadTypes && tile.tileType == TunnelBridgeTile && tile.transportType == TransportRoad
  {
  }

  /**
   * The straight-entrance option only widens the result: it adds to the
   * ramp or tunnel-mouth piece the piece leading into the structure.
   */
  lemma StraightEntranceWidens(tile: Tile, rt: RoadType)
    requires tile.tileType == MiscTile ==> tile.miscSubtype != OtherMiscSubtype
    ensures Within(GetAnyRoadBits(tile, rt, false), GetAnyRoadBits(tile, rt, true))
    ensures GetAnyRoadBits(tile, rt, true) ==
      GetAnyRoadBits(tile, rt, false)
      | (if rt in tile.roadTypes && tile.tileType == TunnelBridgeTile && tile.transportType == TransportRoad
         then DiagDirToRoadBits(tile.tunnelBridgeDirection) else ROAD_NONE)
  {
  }
}
