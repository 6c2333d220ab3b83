/** The measures the layout is made of. */
module Constants {
  const CARD_WIDTH := 264.0
  const CARD_HEIGHT := 140.0
  const GROUP_PAD := 22.0
  const GROUP_LABEL := 26.0
  const CARD_GAP_X := 32.0
  const CARD_GAP_Y := 44.0
  const TASK_GAP := 56.0
  const ISLAND_GAP := 112.0
  const LAYOUT_MARGIN := 24.0
  const LAYOUT_WIDTH := 1320.0
  const RING_PAD := 14.0
  const SUB_WIDTH := 264.0
  const SUB_HEIGHT := 96.0
  const SUB_GAP := 12.0
  const SUB_DROP := 16.0
  const SHELF_SLACK := 1.15
}
