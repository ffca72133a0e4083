/** The commands of the P18 protocol (src/p18/types.h:13-55). */
module Types {
  datatype CommandType =
    | GetProtocolID
    | GetCurrentTime
    | GetTotalGenerated
    | GetYearGenerated
    | GetMonthGenerated
    | GetDayGenerated
    | GetSerialNumber
    | GetCPUVersion
    | GetRatedInformation
    | GetGeneralStatus
    | GetWorkingMode
    | GetFaultsAndWarnings
    | GetFlagsAndStatuses
    | GetRatedDefaults
    | GetAllowedChargeCurrents
    | GetAllowedACChargeCurrents
    | GetParallelRatedInformation
    | GetParallelGeneralStatus
    | GetACChargeTimeBucket
    | GetACSupplyTimeBucket
    | SetACSupply
    | SetFlag
    | SetDefaults
    | SetBatteryMaxChargeCurrent
    | SetBatteryMaxACChargeCurrent
    | SetACOutputFreq
    | SetBatteryMaxChargeVoltage
    | SetACOutputVoltage
    | SetOutputSourcePriority
    | SetBatteryChargeThresholds
    | SetChargeSourcePriority
    | SetSolarPowerPriority
    | SetACInputVoltageRange
    | SetBatteryType
    | SetOutputMode
    | SetBatteryCutOffVoltage
    | SetSolarConfig
    | ClearGenerated
    | SetDateTime
    | SetACChargeTimeBucket
    | SetACSupplyTimeBucket
}
