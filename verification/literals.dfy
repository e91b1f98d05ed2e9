/** The fixed labels and sentinels the merger uses (app.py). */
module Literals {

  /** Substring that marks both the header row and the order-number column. */
  const OrderKeyword: string := "수주"

  /** Prefix of the lock files a spreadsheet editor leaves next to an open workbook. */
  const LockPrefix: string := "~$"

  /** Stem of the merged result file; any basename containing it is not an input. */
  const ResultStem: string := "통합_RAW_DATA_결과"

  /** Basename the merged table is saved under. */
  const ResultFileName: string := ResultStem + ".xlsx"

  /** Work date used when the filename holds no `d-d` date. */
  const UnknownDate: string := "날짜미상"

  /** Furnace tag used when the filename holds no parenthesised group. */
  const UnknownFurnace: string := "호기미상"

  /** Label of the work-date column put in front of every merged row. */
  const DateLabel: string := "작업지시일"

  /** Label of the furnace-tag column put right after the work date. */
  const FurnaceLabel: string := "지시서번호(호기)"
}
